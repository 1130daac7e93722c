/** Which state events an event must cite, and why citing them is enough. */
module AuthSelection {
  import opened Wrappers
  import opened JsonValues
  import opened RoomVersions
  import opened Events
  import opened PowerLevels
  import opened RoomState
  import opened AuthRules
  import opened RoomRuns
  import opened RoomSteps

  // ----- selection

  /** The state entries the rules for this event look at, in the order they are cited. */
  function AuthKeys(b: EventBuilder): seq<StateKey> {
    if b.eventType == TYPE_CREATE then []
    else if b.eventType == TYPE_MEMBER && b.stateKey.Some?
    then CommonAuthKeys(b) + MemberAuthKeys(b.stateKey.value, b.content)
    else CommonAuthKeys(b)
  }

  function CommonAuthKeys(b: EventBuilder): seq<StateKey> {
    (if b.version.createInAuthEvents then [CREATE_KEY] else []) + [LEVELS_KEY, MemberKey(b.sender)]
  }

  function MemberAuthKeys(target: string, content: Fields): seq<StateKey> {
    var membership := StringIn(content, "membership");
    var token := ThirdPartyToken(content);
    var via := StringIn(content, "join_authorised_via_users_server");
    [MemberKey(target)]
    + (if membership == JOIN || membership == INVITE || membership == KNOCK then [JOIN_RULES_KEY] else [])
    + (if membership == INVITE && token != "" then [StateKey(TYPE_THIRD_PARTY_INVITE, token)] else [])
    + (if membership == JOIN && via != "" then [MemberKey(via)] else [])
  }

  function Ids(events: seq<Event>): seq<string> {
    seq(|events|, i requires 0 <= i < |events| => events[i].id)
  }

  /** Adds the entry's event unless it is missing or its id is already cited. */
  function Cite(cited: seq<Event>, s: StateMap, key: StateKey): seq<Event> {
    if key in s && s[key].id !in Ids(cited) then cited + [s[key]] else cited
  }

  function CiteAll(cited: seq<Event>, s: StateMap, keys: seq<StateKey>): seq<Event>
    decreases |keys|
  {
    if keys == [] then cited else CiteAll(Cite(cited, s, keys[0]), s, keys[1..])
  }

  /** The events behind the ids that selection returns. */
  function Selected(b: EventBuilder, s: StateMap): seq<Event> {
    CiteAll([], s, AuthKeys(b))
  }

  lemma {:induction false} CiteAllInTwoParts(cited: seq<Event>, s: StateMap,
                                             first: seq<StateKey>, second: seq<StateKey>)
    ensures CiteAll(cited, s, first + second) == CiteAll(CiteAll(cited, s, first), s, second)
    decreases |first|
  {
    if first == [] {
      assert first + second == second;
    } else {
      assert (first + second)[1..] == first[1..] + second;
      CiteAllInTwoParts(Cite(cited, s, first[0]), s, first[1..], second);
    }
  }

  /** `cited` holds the events whose ids are in `out`; `done` the keys walked so far. */
  method Add(ghost start: seq<Event>, ghost done: seq<StateKey>, out: seq<string>, s: StateMap, key: StateKey)
    returns (ghost done': seq<StateKey>, out': seq<string>)
    requires out == Ids(CiteAll(start, s, done))
    ensures done' == done + [key] && out' == Ids(CiteAll(start, s, done'))
  {
    done', out' := done + [key], out;
    CiteAllInTwoParts(start, s, done, [key]);
    if key in s && s[key].id !in out {
      out' := out + [s[key].id];
    }
  }

  /** Grows the list entry by entry, as the server does. */
  method SelectAuthEvents(b: EventBuilder, s: StateMap) returns (out: seq<string>)
    ensures out == Ids(Selected(b, s))
  {
    out := [];
    if b.eventType == TYPE_CREATE {
      return;
    }
    ghost var done: seq<StateKey> := [];
    if b.version.createInAuthEvents {
      done, out := Add([], done, out, s, CREATE_KEY);
    }
    done, out := Add([], done, out, s, LEVELS_KEY);
    done, out := Add([], done, out, s, MemberKey(b.sender));
    assert done == CommonAuthKeys(b);
    if b.eventType == TYPE_MEMBER && b.stateKey.Some? {
      CiteAllInTwoParts([], s, CommonAuthKeys(b), MemberAuthKeys(b.stateKey.value, b.content));
      out := SelectForMember(CiteAll([], s, CommonAuthKeys(b)), out, b.stateKey.value, b.content, s);
    }
  }

  method SelectForMember(ghost start: seq<Event>, out0: seq<string>, target: string, content: Fields, s: StateMap)
    returns (out: seq<string>)
    requires out0 == Ids(start)
    ensures out == Ids(CiteAll(start, s, MemberAuthKeys(target, content)))
  {
    out := out0;
    ghost var done: seq<StateKey> := [];
    done, out := Add(start, done, out, s, MemberKey(target));
    var membership := StringIn(content, "membership");
    if membership == JOIN || membership == INVITE || membership == KNOCK {
      done, out := Add(start, done, out, s, JOIN_RULES_KEY);
    }
    if membership == INVITE {
      var token := ThirdPartyToken(content);
      if token != "" {
        done, out := Add(start, done, out, s, StateKey(TYPE_THIRD_PARTY_INVITE, token));
      }
    }
    if membership == JOIN {
      var via := StringIn(content, "join_authorised_via_users_server");
      if via != "" {
        done, out := Add(start, done, out, s, MemberKey(via));
      }
    }
    assert done == MemberAuthKeys(target, content);
  }

  /** What a list built by citing holds: only wanted entries, all of the present ones (by id),
      no id twice, and never more events than keys. */
  lemma {:induction false} CitingIsExact(cited: seq<Event>, s: StateMap, keys: seq<StateKey>)
    ensures var out := CiteAll(cited, s, keys);
            && |cited| <= |out| <= |cited| + |keys| && out[..|cited|] == cited
            && (forall e :: e in out ==> e in cited || exists key :: key in keys && key in s && s[key] == e)
            && (forall key | key in keys && key in s :: s[key].id in Ids(out))
            && (Unrepeated(cited) ==> Unrepeated(out))
    decreases |keys|
  {
    if keys != [] {
      var next := Cite(cited, s, keys[0]);
      if Unrepeated(cited) {
        CiteKeepsIdsApart(cited, s, keys[0]);
      }
      CitingIsExact(next, s, keys[1..]);
      var out := CiteAll(cited, s, keys);
      assert next[..|cited|] == cited;
      forall key | key in keys && key in s
        ensures s[key].id in Ids(out)
      {
        if key == keys[0] {
          assert s[key].id in Ids(cited) || Ids(next)[|cited|] == s[key].id;
          CitedStays(next, out, s[key].id);
        } else {
          assert key in keys[1..];
        }
      }
      forall e | e in out && e !in cited
        ensures exists key :: key in keys && key in s && s[key] == e
      {
        if e in next {
          assert keys[0] in keys;
        } else {
          var key :| key in keys[1..] && key in s && s[key] == e;
          assert key in keys;
        }
      }
    }
  }

  ghost predicate Unrepeated(events: seq<Event>) {
    forall i, j | 0 <= i < j < |events| :: events[i].id != events[j].id
  }

  lemma CiteKeepsIdsApart(cited: seq<Event>, s: StateMap, key: StateKey)
    requires Unrepeated(cited)
    ensures Unrepeated(Cite(cited, s, key))
  {
    var next := Cite(cited, s, key);
    forall i, j | 0 <= i < j < |next|
      ensures next[i].id != next[j].id
    {
      assert i < |cited| && Ids(cited)[i] == next[i].id;
    }
  }

  lemma CitedStays(cited: seq<Event>, out: seq<Event>, id: string)
    requires |cited| <= |out| && out[..|cited|] == cited && id in Ids(cited)
    ensures id in Ids(out)
  {
    var i :| 0 <= i < |cited| && Ids(cited)[i] == id;
    assert Ids(out)[i] == id;
  }

  // ----- locality

  /** The part of the state an event's citations bring along: the create event and every entry
      whose event is cited. */
  function Cited(s: StateMap, ids: seq<string>): StateMap {
    map key | key in s && (key == CREATE_KEY || s[key].id in ids) :: s[key]
  }

  /** The rules reach the same verdict, cause included, on the cited part of the state as on
      all of it. */
  lemma AuthorisationIsLocal(b: EventBuilder, e: Event, s: StateMap, create: Event)
    requires Reachable(s, create, b.version)
    requires Describes(b, e) && e.Type() != TYPE_CREATE && |e.PrevEvents()| == 1
    ensures Authorise(e, Cited(s, Ids(Selected(b, s))), b.version) == Authorise(e, s, b.version)
  {
    ReachableStatesAreSound(s, create, b.version);
    var ids := Ids(Selected(b, s));
    CitingIsExact([], s, AuthKeys(b));
    AgreementDecides(b, e, s, Cited(s, ids), create);
  }

  ghost predicate Agree(s: StateMap, t: StateMap, key: StateKey) {
    (key in s <==> key in t) && (key in s ==> s[key] == t[key])
  }

  lemma KeysAreWanted(b: EventBuilder)
    requires b.eventType != TYPE_CREATE
    ensures LEVELS_KEY in AuthKeys(b) && MemberKey(b.sender) in AuthKeys(b)
    ensures b.eventType == TYPE_MEMBER && b.stateKey.Some? ==>
              forall key | key in MemberAuthKeys(b.stateKey.value, b.content) :: key in AuthKeys(b)
  {
  }

  lemma MemberKeysAreWanted(target: string, content: Fields)
    ensures var keys, membership := MemberAuthKeys(target, content), StringIn(content, "membership");
            && MemberKey(target) in keys
            && (membership == JOIN || membership == KNOCK ==> JOIN_RULES_KEY in keys)
            && var via := StringIn(content, "join_authorised_via_users_server");
            (membership == JOIN && via != "" ==> MemberKey(via) in keys)
  {
  }

  lemma AgreementDecides(b: EventBuilder, e: Event, s: StateMap, t: StateMap, create: Event)
    requires RoomInvariant(s, create, b.version)
    requires Describes(b, e) && e.Type() != TYPE_CREATE && |e.PrevEvents()| == 1
    requires t.Keys <= s.Keys && Agree(s, t, CREATE_KEY)
    requires forall key | key in AuthKeys(b) :: Agree(s, t, key)
    ensures Authorise(e, t, b.version) == Authorise(e, s, b.version)
  {
    KeysAreWanted(b);
    LookupsAgree(s, t, b.version, e.Sender());
    var levels := LevelsOf(s, b.version).value;
    OtherAgreementDecides(e, s, t, levels, b.version);
    if e.Type() == TYPE_MEMBER && e.StateKey().Some? {
      WantedKeysCoverMemberLookups(e, s, t, b.version);
      MemberAgreementDecides(e, s, t, create, levels, b.version);
    }
    SameRulingsSameVerdict(e, s, t, levels, b.version);
  }

  /** Past the create event and the levels, only the two kinds of rule look at the state. */
  lemma SameRulingsSameVerdict(e: Event, s: StateMap, t: StateMap, levels: Levels, version: RoomVersion)
    requires CREATE_KEY in s && CREATE_KEY in t && s[CREATE_KEY] == t[CREATE_KEY]
    requires LevelsOf(s, version) == Some(levels) == LevelsOf(t, version)
    requires e.Type() == TYPE_MEMBER && e.StateKey().Some? ==>
               AuthoriseMember(e, t, levels, version) == AuthoriseMember(e, s, levels, version)
    requires AuthoriseOther(e, t, levels, version) == AuthoriseOther(e, s, levels, version)
    ensures Authorise(e, t, version) == Authorise(e, s, version)
  {
  }

  lemma OtherAgreementDecides(e: Event, s: StateMap, t: StateMap, levels: Levels, version: RoomVersion)
    requires Agree(s, t, CREATE_KEY) && Agree(s, t, LEVELS_KEY)
    requires Membership(t, e.Sender()) == Membership(s, e.Sender())
    ensures AuthoriseOther(e, t, levels, version) == AuthoriseOther(e, s, levels, version)
  {
  }

  lemma LookupsAgree(s: StateMap, t: StateMap, version: RoomVersion, userId: string)
    requires Agree(s, t, CREATE_KEY)
    ensures Agree(s, t, LEVELS_KEY) ==> LevelsOf(t, version) == LevelsOf(s, version)
    ensures Agree(s, t, MemberKey(userId)) ==> Membership(t, userId) == Membership(s, userId)
    ensures Agree(s, t, JOIN_RULES_KEY) ==> JoinRule(t) == JoinRule(s)
  {
  }

  /** The membership rules look the same things up in both states. */
  ghost predicate MemberLookupsAgree(e: Event, s: StateMap, t: StateMap)
    requires e.StateKey().Some?
  {
    var membership := StringIn(e.Content(), "membership");
    var via := StringIn(e.Content(), "join_authorised_via_users_server");
    && Agree(s, t, MemberKey(e.StateKey().value))
    && Membership(t, e.Sender()) == Membership(s, e.Sender())
    && Membership(t, e.StateKey().value) == Membership(s, e.StateKey().value)
    && (membership == JOIN || membership == KNOCK ==> JoinRule(t) == JoinRule(s))
    && (membership == JOIN && via != "" ==> Membership(t, via) == Membership(s, via))
  }

  lemma WantedKeysCoverMemberLookups(e: Event, s: StateMap, t: StateMap, version: RoomVersion)
    requires e.StateKey().Some? && Agree(s, t, CREATE_KEY) && Agree(s, t, MemberKey(e.Sender()))
    requires forall key | key in MemberAuthKeys(e.StateKey().value, e.Content()) :: Agree(s, t, key)
    ensures MemberLookupsAgree(e, s, t)
  {
    var target, content := e.StateKey().value, e.Content();
    MemberKeysAreWanted(target, content);
    LookupsAgree(s, t, version, e.Sender());
    LookupsAgree(s, t, version, target);
    LookupsAgree(s, t, version, StringIn(content, "join_authorised_via_users_server"));
  }

  lemma MemberAgreementDecides(e: Event, s: StateMap, t: StateMap, create: Event, levels: Levels, version: RoomVersion)
    requires RoomInvariant(s, create, version)
    requires e.StateKey().Some? && t.Keys <= s.Keys && Agree(s, t, CREATE_KEY)
    requires LevelsOf(s, version) == Some(levels) == LevelsOf(t, version)
    requires MemberLookupsAgree(e, s, t)
    ensures AuthoriseMember(e, t, levels, version) == AuthoriseMember(e, s, levels, version)
  {
    var membership, target := StringIn(e.Content(), "membership"), e.StateKey().value;
    if membership == JOIN {
      BootstrapIsLocal(s, t, create, version, target);
      JoinAgreementDecides(e, s, t, levels, version, target);
    } else {
      MovesAgree(e, s, t, levels, target);
    }
  }

  lemma MovesAgree(e: Event, s: StateMap, t: StateMap, levels: Levels, target: string)
    requires Membership(t, e.Sender()) == Membership(s, e.Sender()) && Membership(t, target) == Membership(s, target)
    ensures AuthoriseInvite(e, t, levels, target) == AuthoriseInvite(e, s, levels, target)
    ensures AuthoriseLeave(e, t, levels, target) == AuthoriseLeave(e, s, levels, target)
    ensures AuthoriseBan(e, t, levels, target) == AuthoriseBan(e, s, levels, target)
    ensures JoinRule(t) == JoinRule(s) ==> AuthoriseKnock(e, t, target) == AuthoriseKnock(e, s, target)
  {
  }

  lemma JoinAgreementDecides(e: Event, s: StateMap, t: StateMap, levels: Levels, version: RoomVersion, target: string)
    requires CREATE_KEY in s && Agree(s, t, CREATE_KEY)
    requires target == s[CREATE_KEY].Sender() ==> (OnlyCreate(t) <==> OnlyCreate(s))
    requires LevelsOf(s, version) == Some(levels) == LevelsOf(t, version)
    requires JoinRule(t) == JoinRule(s) && Membership(t, target) == Membership(s, target)
    requires var via := StringIn(e.Content(), "join_authorised_via_users_server");
             via != "" ==> Membership(t, via) == Membership(s, via)
    ensures AuthoriseJoin(e, t, target, version) == AuthoriseJoin(e, s, target, version)
  {
    assert AuthoriseVouchedJoin(e, t, version) == AuthoriseVouchedJoin(e, s, version);
  }

  /** A join of the creator that finds only the create event among its citations finds only the
      create event in the room: anything more would include the creator's own entry. */
  lemma BootstrapIsLocal(s: StateMap, t: StateMap, create: Event, version: RoomVersion, target: string)
    requires RoomInvariant(s, create, version)
    requires t.Keys <= s.Keys && Agree(s, t, CREATE_KEY) && Agree(s, t, MemberKey(target))
    ensures target == create.Sender() ==> (OnlyCreate(t) <==> OnlyCreate(s))
  {
    KeysDiffer();
    OnlyCreateMeansNothingElse(s);
    OnlyCreateMeansNothingElse(t);
  }

  // ----- checking what an event cites

  predicate SameRoomOrUnknown(e: Event, cited: Event) {
    cited.RoomId() == "" || e.RoomId() == "" || cited.RoomId() == e.RoomId()
  }

  /** The shape an event's citations must have. */
  predicate CitationsValid(e: Event, declared: seq<Event>, version: RoomVersion) {
    && (forall i | 0 <= i < |declared| ::
          && KeyOf(declared[i]).Some?
          && (declared[i].Type() == TYPE_CREATE ==> version.createInAuthEvents)
          && SameRoomOrUnknown(e, declared[i]))
    && (forall i, j | 0 <= i < j < |declared| :: KeyOf(declared[i]) != KeyOf(declared[j]))
    && (version.createInAuthEvents && e.Type() != TYPE_CREATE ==>
          exists i | 0 <= i < |declared| :: KeyOf(declared[i]) == Some(CREATE_KEY))
  }

  method CheckAuthEvents(e: Event, declared: seq<Event>, version: RoomVersion) returns (ok: bool)
    ensures ok == CitationsValid(e, declared, version)
  {
    var seen: set<StateKey> := {};
    for i := 0 to |declared|
      invariant forall k | 0 <= k < i ::
                  && KeyOf(declared[k]).Some?
                  && (declared[k].Type() == TYPE_CREATE ==> version.createInAuthEvents)
                  && SameRoomOrUnknown(e, declared[k])
      invariant forall j, k | 0 <= j < k < i :: KeyOf(declared[j]) != KeyOf(declared[k])
      invariant forall key :: key in seen <==> exists k | 0 <= k < i :: KeyOf(declared[k]) == Some(key)
    {
      var a := declared[i];
      if a.StateKey().None? {
        return false;
      }
      var key := StateKey(a.Type(), a.StateKey().value);
      if key in seen {
        return false;
      }
      seen := seen + {key};
      if a.Type() == TYPE_CREATE && !version.createInAuthEvents {
        return false;
      }
      if a.RoomId() != "" && e.RoomId() != "" && a.RoomId() != e.RoomId() {
        return false;
      }
    }
    return !(version.createInAuthEvents && e.Type() != TYPE_CREATE) || CREATE_KEY in seen;
  }

  /** What selection returns in a reachable state is at most six events, each under a state key
      of its own, and always passes the check on citations. */
  lemma SelectionPassesTheCheck(b: EventBuilder, e: Event, s: StateMap, create: Event)
    requires Reachable(s, create, b.version)
    requires Describes(b, e)
    requires forall key | key in s :: SameRoomOrUnknown(e, s[key])
    ensures |Selected(b, s)| <= 6 < MAX_AUTH_EVENTS
    ensures CitationsValid(e, Selected(b, s), b.version)
  {
    ReachableStatesAreSound(s, create, b.version);
    var cited := Selected(b, s);
    CitingIsExact([], s, AuthKeys(b));
    EveryCitationIsStored(b, s, create);
    StoredEventsHaveOwnKeys(cited, s);
    forall i | 0 <= i < |cited|
      ensures SameRoomOrUnknown(e, cited[i])
    {
      assert cited[i] in cited;
    }
    if b.version.createInAuthEvents && b.eventType != TYPE_CREATE {
      CreateIsCitedFirst(b, s, create);
    }
  }

  lemma StoredEventsHaveOwnKeys(cited: seq<Event>, s: StateMap)
    requires Unrepeated(cited)
    requires forall a | a in cited :: KeyOf(a).Some? && KeyOf(a).value in s && s[KeyOf(a).value] == a
    ensures forall i, j | 0 <= i < j < |cited| :: KeyOf(cited[i]) != KeyOf(cited[j])
  {
  }

  lemma EveryCitationIsStored(b: EventBuilder, s: StateMap, create: Event)
    requires RoomInvariant(s, create, b.version)
    ensures forall a | a in Selected(b, s) ::
              && KeyOf(a).Some? && KeyOf(a).value in s && s[KeyOf(a).value] == a
              && (a.Type() == TYPE_CREATE ==> b.version.createInAuthEvents)
  {
    var keys := AuthKeys(b);
    CitingIsExact([], s, keys);
    OnlyOldVersionsCiteCreate(b);
    forall a | a in Selected(b, s)
      ensures KeyOf(a).Some? && KeyOf(a).value in s && s[KeyOf(a).value] == a
      ensures a.Type() == TYPE_CREATE ==> b.version.createInAuthEvents
    {
      var key :| key in keys && key in s && s[key] == a;
      assert KeyOf(s[key]) == Some(key);
    }
  }

  lemma OnlyOldVersionsCiteCreate(b: EventBuilder)
    ensures forall key | key in AuthKeys(b) && key.eventType == TYPE_CREATE :: b.version.createInAuthEvents
  {
  }

  lemma CreateIsCitedFirst(b: EventBuilder, s: StateMap, create: Event)
    requires RoomInvariant(s, create, b.version)
    requires b.version.createInAuthEvents && b.eventType != TYPE_CREATE
    ensures Selected(b, s) != [] && Selected(b, s)[0] == create
  {
    var keys := AuthKeys(b);
    assert keys[0] == CREATE_KEY;
    CitingIsExact([create], s, keys[1..]);
    assert Cite([], s, CREATE_KEY) == [create];
    assert Selected(b, s)[0] == Selected(b, s)[..1][0];
  }

  // ----- what is selected, in the specification's words

  /** The entry is one that an event of this kind cites: the create event where the version says
      so, the power levels and the sender's membership for every event but a create event, and
      for a membership event the target's, the join rules for a join, an invite or a knock, the
      third party invite an invite's token names and the membership of a join's voucher. */
  ghost predicate IsToBeCited(b: EventBuilder, key: StateKey) {
    var target, membership := b.stateKey, StringIn(b.content, "membership");
    && b.eventType != "m.room.create"
    && (|| (key == StateKey("m.room.create", "") && b.version.createInAuthEvents)
        || key == StateKey("m.room.power_levels", "")
        || key == StateKey("m.room.member", b.sender)
        || (&& b.eventType == "m.room.member" && target.Some?
            && (|| key == StateKey("m.room.member", target.value)
                || (key == StateKey("m.room.join_rules", "") && membership in {"join", "invite", "knock"})
                || (membership == "invite" && NamesToken(b.content, key.stateKey)
                    && key == StateKey("m.room.third_party_invite", key.stateKey))
                || (membership == "join"
                    && StringIn(b.content, "join_authorised_via_users_server") == key.stateKey != ""
                    && key == StateKey("m.room.member", key.stateKey)))))
  }

  /** The content carries a signed third party invite with this token. */
  ghost predicate NamesToken(content: Fields, token: string) {
    HoldsToken(content) && content["third_party_invite"].fields["signed"].fields["token"] == String(token)
  }

  /** Where such an entry stands among the citations. */
  ghost function PlaceOf(b: EventBuilder, key: StateKey): nat {
    if key == StateKey("m.room.create", "") then 0
    else if key == StateKey("m.room.power_levels", "") then 1
    else if key == StateKey("m.room.member", b.sender) then 2
    else if b.stateKey.Some? && key == StateKey("m.room.member", b.stateKey.value) then 3
    else if key == StateKey("m.room.join_rules", "") then 4
    else if key.eventType == "m.room.third_party_invite" then 5
    else 6
  }

  lemma WantedIsToBeCited(b: EventBuilder, key: StateKey)
    ensures key in AuthKeys(b) <==> IsToBeCited(b, key)
  {
    MembershipsDiffer();
    if b.eventType != TYPE_CREATE && b.stateKey.Some? {
      MemberKeysAreToBeCited(b.stateKey.value, b.content, key);
    }
  }

  lemma MemberKeysAreToBeCited(target: string, content: Fields, key: StateKey)
    ensures var membership := StringIn(content, "membership");
            key in MemberAuthKeys(target, content) <==>
              || key == StateKey("m.room.member", target)
              || (key == StateKey("m.room.join_rules", "") && membership in {"join", "invite", "knock"})
              || (membership == "invite" && NamesToken(content, key.stateKey)
                  && key == StateKey("m.room.third_party_invite", key.stateKey))
              || (membership == "join" && StringIn(content, "join_authorised_via_users_server") == key.stateKey != ""
                  && key == StateKey("m.room.member", key.stateKey))
  {
    MembershipsDiffer();
  }

  /** In a reachable state, with ids that tell events apart, the events selected are exactly
      those stored under the entries to be cited. */
  lemma SelectionIsExact(b: EventBuilder, s: StateMap, create: Event, key: StateKey)
    requires Reachable(s, create, b.version) && IdsTellEventsApart(s.Values) && key in s
    ensures s[key].id in Ids(Selected(b, s)) <==> IsToBeCited(b, key)
  {
    ReachableStatesAreSound(s, create, b.version);
    CitingIsExact([], s, AuthKeys(b));
    WantedIsToBeCited(b, key);
    if s[key].id in Ids(Selected(b, s)) {
      var i :| 0 <= i < |Selected(b, s)| && Selected(b, s)[i].id == s[key].id;
      var a := Selected(b, s)[i];
      assert a in Selected(b, s);
      var other :| other in AuthKeys(b) && other in s && s[other] == a;
      assert s[other] in s.Values && s[key] in s.Values;
      assert KeyOf(s[other]) == Some(other) && KeyOf(s[key]) == Some(key);
    }
  }

  /** Events of version 11 cite the create event, those of version 12 do not. */
  lemma OnlyVersion11CitesCreate(b: EventBuilder, s: StateMap, create: Event)
    requires Supported(b.version) && Reachable(s, create, b.version) && IdsTellEventsApart(s.Values)
    ensures create.id in Ids(Selected(b, s)) <==> b.version.id == "11" && b.eventType != "m.room.create"
  {
    ReachableStatesAreSound(s, create, b.version);
    SelectionIsExact(b, s, create, CREATE_KEY);
    KeysDiffer();
    assert "11"[1] != "12"[1];
  }

  /** What may be cited: state events of the same room, each under a key of its own, with the
      create event among them in version 11, but for a create event, and never in version 12. */
  lemma CitationsInWords(e: Event, declared: seq<Event>, version: RoomVersion)
    requires Supported(version)
    ensures CitationsValid(e, declared, version) <==>
              && (forall a | a in declared ::
                    && a.StateKey().Some?
                    && (a.RoomId() == e.RoomId() || a.RoomId() == "" || e.RoomId() == "")
                    && (version.id == "12" ==> a.Type() != "m.room.create"))
              && (forall i, j | 0 <= i < j < |declared| ::
                    declared[i].Type() != declared[j].Type() || declared[i].StateKey() != declared[j].StateKey())
              && (version.id == "11" && e.Type() != "m.room.create" ==>
                    exists a :: a in declared && a.Type() == "m.room.create" && a.StateKey() == Some(""))
  {
    assert "11"[1] != "12"[1];
    CreateIsDeclared(declared);
  }

  lemma CreateIsDeclared(declared: seq<Event>)
    ensures (exists i | 0 <= i < |declared| :: KeyOf(declared[i]) == Some(CREATE_KEY)) <==>
            exists a :: a in declared && a.Type() == "m.room.create" && a.StateKey() == Some("")
  {
    if a :| a in declared && a.Type() == "m.room.create" && a.StateKey() == Some("") {
      var i :| 0 <= i < |declared| && declared[i] == a;
      assert KeyOf(declared[i]) == Some(CREATE_KEY);
    }
    if i :| 0 <= i < |declared| && KeyOf(declared[i]) == Some(CREATE_KEY) {
      assert declared[i] in declared;
    }
  }

  // ----- the order of the citations

  /** The events are stored under entries at increasing places, all before the bound. */
  ghost predicate InPlace(b: EventBuilder, cited: seq<Event>, bound: nat) {
    && (forall a | a in cited :: KeyOf(a).Some? && PlaceOf(b, KeyOf(a).value) < bound)
    && (forall i, j | 0 <= i < j < |cited| :: PlaceOf(b, KeyOf(cited[i]).value) < PlaceOf(b, KeyOf(cited[j]).value))
  }

  /** Each key is a repeat or stands at a later place than all before it. */
  ghost predicate KeysInPlace(b: EventBuilder, keys: seq<StateKey>) {
    forall j | 0 <= j < |keys| ::
      keys[j] in keys[..j] || forall i | 0 <= i < j :: PlaceOf(b, keys[i]) < PlaceOf(b, keys[j])
  }

  lemma CiteStaysInPlace(b: EventBuilder, s: StateMap, cited: seq<Event>, key: StateKey, bound: nat)
    requires InPlace(b, cited, bound) && (key in s ==> KeyOf(s[key]) == Some(key))
    requires PlaceOf(b, key) >= bound || (key in s ==> s[key].id in Ids(cited))
    ensures InPlace(b, Cite(cited, s, key), if PlaceOf(b, key) >= bound then PlaceOf(b, key) + 1 else bound)
  {
    var next := Cite(cited, s, key);
    if next != cited {
      forall i, j | 0 <= i < j < |next|
        ensures KeyOf(next[i]).Some? && KeyOf(next[j]).Some?
        ensures PlaceOf(b, KeyOf(next[i]).value) < PlaceOf(b, KeyOf(next[j]).value)
      {
        assert next[i] == cited[i] && cited[i] in cited;
        assert j < |cited| ==> next[j] == cited[j];
      }
    }
  }

  lemma NextInPlace(b: EventBuilder, done: seq<StateKey>, key: StateKey, all: seq<StateKey>)
    requires KeysInPlace(b, all) && |done| < |all| && all[..|done|] == done && all[|done|] == key
    ensures key in done || forall k | k in done :: PlaceOf(b, k) < PlaceOf(b, key)
  {
    if key !in done {
      forall k | k in done
        ensures PlaceOf(b, k) < PlaceOf(b, key)
      {
        var i :| 0 <= i < |done| && done[i] == k;
        assert all[i] == all[..|done|][i];
      }
    }
  }

  /** What is cited so far when the keys done are walked: their events, at places before the
      bound, which is no later than they need. */
  ghost predicate Walked(b: EventBuilder, s: StateMap, cited: seq<Event>, done: seq<StateKey>, bound: nat) {
    && InPlace(b, cited, bound)
    && (forall key | key in done && key in s :: s[key].id in Ids(cited))
    && (bound == 0 || exists key :: key in done && PlaceOf(b, key) == bound - 1)
  }

  lemma WalkOn(b: EventBuilder, s: StateMap, cited: seq<Event>, done: seq<StateKey>, key: StateKey, bound: nat)
    returns (next: nat)
    requires Walked(b, s, cited, done, bound) && (key in s ==> KeyOf(s[key]) == Some(key))
    requires key in done || forall k | k in done :: PlaceOf(b, k) < PlaceOf(b, key)
    ensures Walked(b, s, Cite(cited, s, key), done + [key], next)
  {
    next := if PlaceOf(b, key) >= bound then PlaceOf(b, key) + 1 else bound;
    CiteStaysInPlace(b, s, cited, key, bound);
    var out := Cite(cited, s, key);
    assert key in done + [key];
    forall k | k in done + [key] && k in s
      ensures s[k].id in Ids(out)
    {
      if k in done || s[k].id in Ids(cited) {
        CitedStays(cited, out, s[k].id);
      } else {
        assert Ids(out)[|cited|] == s[k].id;
      }
    }
  }

  lemma OneMoreDone(done: seq<StateKey>, keys: seq<StateKey>)
    requires keys != []
    ensures (done + keys)[..|done|] == done && (done + keys)[|done|] == keys[0]
    ensures done + [keys[0]] + keys[1..] == done + keys
  {
  }

  lemma {:induction false} CitingStaysInPlace(b: EventBuilder, s: StateMap, cited: seq<Event>, done: seq<StateKey>,
                                              keys: seq<StateKey>, bound: nat)
    returns (end: nat)
    requires KeysInPlace(b, done + keys) && Walked(b, s, cited, done, bound)
    requires forall key | key in s :: KeyOf(s[key]) == Some(key)
    ensures InPlace(b, CiteAll(cited, s, keys), end)
    decreases |keys|
  {
    if keys == [] {
      end := bound;
    } else {
      OneMoreDone(done, keys);
      NextInPlace(b, done, keys[0], done + keys);
      var next := WalkOn(b, s, cited, done, keys[0], bound);
      end := CitingStaysInPlace(b, s, Cite(cited, s, keys[0]), done + [keys[0]], keys[1..], next);
    }
  }

  lemma AppendInPlace(b: EventBuilder, keys: seq<StateKey>, key: StateKey)
    requires KeysInPlace(b, keys)
    requires key in keys || forall k | k in keys :: PlaceOf(b, k) < PlaceOf(b, key)
    ensures KeysInPlace(b, keys + [key])
  {
    var longer := keys + [key];
    forall j | 0 <= j < |longer|
      ensures longer[j] in longer[..j] || forall i | 0 <= i < j :: PlaceOf(b, longer[i]) < PlaceOf(b, longer[j])
    {
      if j < |keys| {
        assert longer[..j] == keys[..j] && longer[j] == keys[j];
      } else {
        assert longer[..j] == keys;
      }
    }
  }

  lemma CommonKeysAreInPlace(b: EventBuilder)
    ensures KeysInPlace(b, CommonAuthKeys(b))
    ensures MemberKey(b.sender) in CommonAuthKeys(b)
    ensures forall key | key in CommonAuthKeys(b) :: PlaceOf(b, key) <= 2
  {
    KeysDiffer();
    var first, second, third := CREATE_KEY, LEVELS_KEY, MemberKey(b.sender);
    assert PlaceOf(b, first) == 0 && PlaceOf(b, second) == 1 && PlaceOf(b, third) == 2;
    CommonKeysBuildUp(b, first, second, third);
  }

  lemma CommonKeysBuildUp(b: EventBuilder, first: StateKey, second: StateKey, third: StateKey)
    requires PlaceOf(b, first) == 0 && PlaceOf(b, second) == 1 && PlaceOf(b, third) == 2
    ensures var keys := (if b.version.createInAuthEvents then [first] else []) + [second, third];
            KeysInPlace(b, keys) && third in keys && forall key | key in keys :: PlaceOf(b, key) <= 2
  {
    var start := if b.version.createInAuthEvents then [first] else [];
    AppendInPlace(b, start, second);
    AppendInPlace(b, start + [second], third);
    assert start + [second] + [third] == start + [second, third];
  }

  lemma PlacesOfMemberKeys(b: EventBuilder, target: string, token: string, via: string)
    requires b.stateKey == Some(target)
    ensures PlaceOf(b, MemberKey(target)) == if target == b.sender then 2 else 3
    ensures PlaceOf(b, JOIN_RULES_KEY) == 4 && PlaceOf(b, StateKey(TYPE_THIRD_PARTY_INVITE, token)) == 5
    ensures PlaceOf(b, MemberKey(via)) == if via == b.sender then 2 else if via == target then 3 else 6
  {
    KeysDiffer();
  }

  lemma AuthKeysAreInPlace(b: EventBuilder)
    ensures KeysInPlace(b, AuthKeys(b))
  {
    if b.eventType == TYPE_MEMBER && b.stateKey.Some? {
      var target, content := b.stateKey.value, b.content;
      var membership, token := StringIn(content, "membership"), ThirdPartyToken(content);
      var via := StringIn(content, "join_authorised_via_users_server");
      MembershipsDiffer();
      CommonKeysAreInPlace(b);
      PlacesOfMemberKeys(b, target, token, via);
      var keys := CommonAuthKeys(b) + [MemberKey(target)];
      AppendInPlace(b, CommonAuthKeys(b), MemberKey(target));
      AppendInPlace(b, keys, JOIN_RULES_KEY);
      AppendInPlace(b, keys + [JOIN_RULES_KEY], StateKey(TYPE_THIRD_PARTY_INVITE, token));
      AppendInPlace(b, keys + [JOIN_RULES_KEY], MemberKey(via));
      MemberKeysBuildUp(b, target, content);
    } else {
      CommonKeysAreInPlace(b);
      assert AuthKeys(b) != [] ==> AuthKeys(b) == CommonAuthKeys(b);
    }
  }

  lemma MemberKeysBuildUp(b: EventBuilder, target: string, content: Fields)
    requires b.eventType == TYPE_MEMBER && b.stateKey == Some(target) && b.content == content
    ensures var keys, membership := CommonAuthKeys(b) + [MemberKey(target)], StringIn(content, "membership");
            var token, via := ThirdPartyToken(content), StringIn(content, "join_authorised_via_users_server");
            AuthKeys(b) in {keys, keys + [JOIN_RULES_KEY],
                            keys + [JOIN_RULES_KEY] + [StateKey(TYPE_THIRD_PARTY_INVITE, token)],
                            keys + [JOIN_RULES_KEY] + [MemberKey(via)]}
  {
    MembershipsDiffer();
    KeysDiffer();
    var keys, membership := CommonAuthKeys(b) + [MemberKey(target)], StringIn(content, "membership");
    var token, via := ThirdPartyToken(content), StringIn(content, "join_authorised_via_users_server");
    if membership == INVITE && token != "" {
      assert AuthKeys(b) == keys + [JOIN_RULES_KEY] + [StateKey(TYPE_THIRD_PARTY_INVITE, token)];
    } else if membership == JOIN && via != "" {
      assert AuthKeys(b) == keys + [JOIN_RULES_KEY] + [MemberKey(via)];
    } else if membership == JOIN || membership == INVITE || membership == KNOCK {
      assert AuthKeys(b) == keys + [JOIN_RULES_KEY];
    } else {
      assert AuthKeys(b) == keys;
    }
  }

  lemma CitationsAreInPlace(b: EventBuilder, s: StateMap) returns (end: nat)
    requires forall key | key in s :: KeyOf(s[key]) == Some(key)
    ensures InPlace(b, Selected(b, s), end)
  {
    AuthKeysAreInPlace(b);
    assert [] + AuthKeys(b) == AuthKeys(b);
    end := CitingStaysInPlace(b, s, [], [], AuthKeys(b), 0);
  }

  /** The events selected come in the order of their places: the create event, the power levels,
      the sender's membership, the target's, the join rules, the third party invite, the
      voucher's membership. */
  lemma SelectionIsInOrder(b: EventBuilder, s: StateMap, create: Event, i: nat, j: nat)
    requires Reachable(s, create, b.version) && i < j < |Selected(b, s)|
    ensures var first, second := KeyOf(Selected(b, s)[i]), KeyOf(Selected(b, s)[j]);
            first.Some? && second.Some? && PlaceOf(b, first.value) < PlaceOf(b, second.value)
  {
    ReachableStatesAreSound(s, create, b.version);
    var end := CitationsAreInPlace(b, s);
    assert Selected(b, s)[i] in Selected(b, s) && Selected(b, s)[j] in Selected(b, s);
  }
}
