/** Power levels: the rank order with creators above every number, and the parsed content of
    an m.room.power_levels event. */
module PowerLevels {
  import opened Wrappers
  import opened JsonValues
  import opened RoomVersions
  import opened Events

  // ----- ranks

  datatype Rank = Rank(value: int, creator: bool) {
    predicate AtLeast(other: Rank) {
      creator || (!other.creator && value >= other.value)
    }

    predicate GreaterThan(other: Rank) {
      !other.creator && (creator || value > other.value)
    }
  }

  function Power(value: int): Rank {
    Rank(value, false)
  }

  const CREATOR_RANK := Rank(0, true)

  /** Outranking someone is reaching them without them reaching back, and every two ranks
      compare; the value carried by a creator's rank never shows. */
  lemma RanksFormAnOrder(a: Rank, b: Rank, c: Rank)
    ensures a.GreaterThan(b) <==> !b.AtLeast(a)
    ensures a.AtLeast(b) && b.AtLeast(c) ==> a.AtLeast(c)
    ensures a.AtLeast(b) && b.GreaterThan(c) ==> a.GreaterThan(c)
  {
  }

  // ----- levels

  type Table = map<string, int>

  datatype Levels = Levels(
    ban: int,
    kick: int,
    redact: int,
    invite: int,
    stateDefault: int,
    eventsDefault: int,
    usersDefault: int,
    events: Table,
    users: Table,
    notifications: Table,
    creators: seq<string>,
    version: RoomVersion)
  {
    predicate IsCreator(userId: string) {
      version.creatorsOutrankPowerLevels && userId in creators
    }

    function UserLevel(userId: string): Rank {
      if IsCreator(userId) then CREATOR_RANK
      else Power(if userId in users then users[userId] else usersDefault)
    }

    function EventLevel(eventType: string, isState: bool): Rank {
      Power(if eventType in events then events[eventType]
            else if isState then stateDefault else eventsDefault)
    }

    /** The scalar thresholds, in the order the rules compare them. */
    function Scalars(): seq<int> {
      [usersDefault, eventsDefault, stateDefault, ban, redact, kick, invite]
    }
  }

  function DefaultLevels(version: RoomVersion, creators: seq<string>): Levels {
    Levels(50, 50, 50, 0, 50, 0, 0, map[], map[], map[], creators, version)
  }

  // ----- parsing

  datatype ParseError = Malformed | NamesCreator

  function ScalarIn(content: Fields, key: string, default: int): Option<int> {
    if key !in content then Some(default)
    else if content[key].Number? then Some(content[key].n)
    else None
  }

  predicate AllNumbers(entries: Fields) {
    forall name | name in entries :: entries[name].Number?
  }

  function Numbers(entries: Fields): Table
    requires AllNumbers(entries)
  {
    map name | name in entries :: entries[name].n
  }

  function TableIn(content: Fields, key: string): Option<Table> {
    if key !in content then Some(map[])
    else if content[key].Object? && AllNumbers(content[key].fields) then Some(Numbers(content[key].fields))
    else None
  }

  /** The levels the content spells out, before anyone asks whom they name. */
  function Read(content: Fields, version: RoomVersion, creators: seq<string>): Option<Levels> {
    var ban :- ScalarIn(content, "ban", 50);
    var kick :- ScalarIn(content, "kick", 50);
    var redact :- ScalarIn(content, "redact", 50);
    var invite :- ScalarIn(content, "invite", 0);
    var stateDefault :- ScalarIn(content, "state_default", 50);
    var eventsDefault :- ScalarIn(content, "events_default", 0);
    var usersDefault :- ScalarIn(content, "users_default", 0);
    var events :- TableIn(content, "events");
    var users :- TableIn(content, "users");
    var notifications :- TableIn(content, "notifications");
    Some(Levels(ban, kick, redact, invite, stateDefault, eventsDefault, usersDefault,
                events, users, notifications, creators, version))
  }

  /** Every key of the users table is a user id, and none of them is a creator who outranks it. */
  predicate NamesOrdinaryUsers(levels: Levels) {
    forall user | user in levels.users :: IsUserId(user) && !levels.IsCreator(user)
  }

  function Parse(content: Fields, version: RoomVersion, creators: seq<string>): Option<Levels> {
    var levels :- Read(content, version, creators);
    if NamesOrdinaryUsers(levels) then Some(levels) else None
  }

  /** What can be read names user ids only, and no creator where creators outrank the levels. */
  lemma ReadableLevelsNameOrdinaryUsers(content: Fields, version: RoomVersion, creators: seq<string>)
    requires Read(content, version, creators).Some?
    ensures var levels := Read(content, version, creators).value;
            Parse(content, version, creators) == Some(levels) <==>
              forall user | user in levels.users ::
                IsUserId(user) && (version.creatorsOutrankPowerLevels ==> user !in creators)
  {
  }

  const SCALAR_KEYS := ["ban", "kick", "redact", "invite", "state_default", "events_default", "users_default"]
  const SCALAR_DEFAULTS := [50, 50, 50, 0, 50, 0, 0]

  method ParseScalars(content: Fields) returns (values: Option<seq<int>>)
    ensures values.Some? <==> forall k | 0 <= k < 7 :: ScalarIn(content, SCALAR_KEYS[k], SCALAR_DEFAULTS[k]).Some?
    ensures values.Some? ==> |values.value| == 7
    ensures values.Some? ==> forall k | 0 <= k < 7 ::
              ScalarIn(content, SCALAR_KEYS[k], SCALAR_DEFAULTS[k]) == Some(values.value[k])
  {
    var out := SCALAR_DEFAULTS;
    for i := 0 to 7
      invariant |out| == 7 && out[i..] == SCALAR_DEFAULTS[i..]
      invariant forall k | 0 <= k < i :: ScalarIn(content, SCALAR_KEYS[k], SCALAR_DEFAULTS[k]) == Some(out[k])
    {
      var key := SCALAR_KEYS[i];
      assert out[i] == out[i..][0] == SCALAR_DEFAULTS[i];
      if key in content {
        if !content[key].Number? {
          return None;
        }
        out := out[i := content[key].n];
      }
    }
    return Some(out);
  }

  method ParseTable(content: Fields, key: string) returns (table: Option<Table>)
    ensures table == TableIn(content, key)
  {
    if key !in content {
      return Some(map[]);
    }
    if !content[key].Object? {
      return None;
    }
    var entries := content[key].fields;
    var parsed: Table := map[];
    var rest := entries.Keys;
    while rest != {}
      invariant rest <= entries.Keys && parsed.Keys == entries.Keys - rest
      invariant forall name | name in parsed :: entries[name].Number? && parsed[name] == entries[name].n
      decreases rest
    {
      var name :| name in rest;
      if !entries[name].Number? {
        return None;
      }
      parsed := parsed[name := entries[name].n];
      rest := rest - {name};
    }
    assert parsed == Numbers(entries);
    return Some(parsed);
  }

  /** Which of two faults is reported depends on the order in which the users table is
      walked, so only what each report means is promised. */
  method ParsePowerLevels(content: Fields, version: RoomVersion, creators: seq<string>)
    returns (result: Result<Levels, ParseError>)
    ensures result.Ok? <==> Parse(content, version, creators).Some?
    ensures result.Ok? ==> Parse(content, version, creators) == Some(result.value)
    ensures result == Err(NamesCreator) ==>
              && Read(content, version, creators).Some?
              && var levels := Read(content, version, creators).value;
              exists user :: user in levels.users && levels.IsCreator(user)
    ensures result == Err(Malformed) ==>
              || Read(content, version, creators).None?
              || exists user :: user in Read(content, version, creators).value.users && !IsUserId(user)
  {
    var scalars := ParseScalars(content);
    if scalars.None? {
      ScalarsDecideRead(content, version, creators);
      return Err(Malformed);
    }
    var events := ParseTable(content, "events");
    var users := ParseTable(content, "users");
    var notifications := ParseTable(content, "notifications");
    ScalarsDecideRead(content, version, creators);
    if events.None? || users.None? || notifications.None? {
      return Err(Malformed);
    }
    var v := scalars.value;
    var levels := Levels(v[0], v[1], v[2], v[3], v[4], v[5], v[6],
                         events.value, users.value, notifications.value, creators, version);
    assert Read(content, version, creators) == Some(levels);
    var rest := levels.users.Keys;
    while rest != {}
      invariant rest <= levels.users.Keys
      invariant forall user | user in levels.users && user !in rest :: IsUserId(user) && !levels.IsCreator(user)
      decreases rest
    {
      var user :| user in rest;
      if !IsUserId(user) {
        return Err(Malformed);
      }
      if levels.IsCreator(user) {
        return Err(NamesCreator);
      }
      rest := rest - {user};
    }
    return Ok(levels);
  }

  lemma ScalarsDecideRead(content: Fields, version: RoomVersion, creators: seq<string>)
    ensures Read(content, version, creators).Some? <==>
              && (forall k | 0 <= k < 7 :: ScalarIn(content, SCALAR_KEYS[k], SCALAR_DEFAULTS[k]).Some?)
              && TableIn(content, "events").Some?
              && TableIn(content, "users").Some?
              && TableIn(content, "notifications").Some?
    ensures Read(content, version, creators).Some? ==>
              var levels := Read(content, version, creators).value;
              && ScalarIn(content, SCALAR_KEYS[0], SCALAR_DEFAULTS[0]) == Some(levels.ban)
              && ScalarIn(content, SCALAR_KEYS[1], SCALAR_DEFAULTS[1]) == Some(levels.kick)
              && ScalarIn(content, SCALAR_KEYS[2], SCALAR_DEFAULTS[2]) == Some(levels.redact)
              && ScalarIn(content, SCALAR_KEYS[3], SCALAR_DEFAULTS[3]) == Some(levels.invite)
              && ScalarIn(content, SCALAR_KEYS[4], SCALAR_DEFAULTS[4]) == Some(levels.stateDefault)
              && ScalarIn(content, SCALAR_KEYS[5], SCALAR_DEFAULTS[5]) == Some(levels.eventsDefault)
              && ScalarIn(content, SCALAR_KEYS[6], SCALAR_DEFAULTS[6]) == Some(levels.usersDefault)
  {
    assert SCALAR_KEYS[0] == "ban" && SCALAR_KEYS[1] == "kick" && SCALAR_KEYS[2] == "redact"
        && SCALAR_KEYS[3] == "invite" && SCALAR_KEYS[4] == "state_default"
        && SCALAR_KEYS[5] == "events_default" && SCALAR_KEYS[6] == "users_default";
  }

  // ----- writing levels out and reading them back

  function Entries(table: Table): Json {
    Object(map name | name in table :: Number(table[name]))
  }

  /** Content that spells every level out. */
  function Render(levels: Levels): Fields {
    map["ban" := Number(levels.ban), "kick" := Number(levels.kick), "redact" := Number(levels.redact),
        "invite" := Number(levels.invite), "state_default" := Number(levels.stateDefault),
        "events_default" := Number(levels.eventsDefault), "users_default" := Number(levels.usersDefault),
        "events" := Entries(levels.events), "users" := Entries(levels.users),
        "notifications" := Entries(levels.notifications)]
  }

  /** The levels with the defaults of the specification in place of what is left unsaid. */
  function WithDefaults(levels: Levels, unsaid: set<string>): Levels {
    Levels(if "ban" in unsaid then 50 else levels.ban,
           if "kick" in unsaid then 50 else levels.kick,
           if "redact" in unsaid then 50 else levels.redact,
           if "invite" in unsaid then 0 else levels.invite,
           if "state_default" in unsaid then 50 else levels.stateDefault,
           if "events_default" in unsaid then 0 else levels.eventsDefault,
           if "users_default" in unsaid then 0 else levels.usersDefault,
           if "events" in unsaid then map[] else levels.events,
           if "users" in unsaid then map[] else levels.users,
           if "notifications" in unsaid then map[] else levels.notifications,
           levels.creators, levels.version)
  }

  lemma TableReadsBack(content: Fields, key: string, table: Table)
    requires key in content && content[key] == Entries(table)
    ensures TableIn(content, key) == Some(table)
  {
    assert Numbers(content[key].fields) == table;
  }

  lemma ScalarsReadBack(levels: Levels, unsaid: set<string>)
    ensures var content, expected := Render(levels) - unsaid, WithDefaults(levels, unsaid);
            && ScalarIn(content, "ban", 50) == Some(expected.ban)
            && ScalarIn(content, "kick", 50) == Some(expected.kick)
            && ScalarIn(content, "redact", 50) == Some(expected.redact)
            && ScalarIn(content, "invite", 0) == Some(expected.invite)
            && ScalarIn(content, "state_default", 50) == Some(expected.stateDefault)
            && ScalarIn(content, "events_default", 0) == Some(expected.eventsDefault)
            && ScalarIn(content, "users_default", 0) == Some(expected.usersDefault)
  {
  }

  /** Whatever is spelled out reads back as it was, and whatever is left out reads as its
      default; naming anyone but an ordinary user makes the whole content unreadable. */
  lemma LevelsReadBack(levels: Levels, unsaid: set<string>)
    ensures Parse(Render(levels) - unsaid, levels.version, levels.creators)
         == if NamesOrdinaryUsers(WithDefaults(levels, unsaid)) then Some(WithDefaults(levels, unsaid)) else None
  {
    var content, rendered := Render(levels) - unsaid, Render(levels);
    ScalarsReadBack(levels, unsaid);
    assert rendered["events"] == Entries(levels.events) && rendered["users"] == Entries(levels.users)
        && rendered["notifications"] == Entries(levels.notifications);
    if "events" !in unsaid {
      TableReadsBack(content, "events", levels.events);
    }
    if "users" !in unsaid {
      TableReadsBack(content, "users", levels.users);
    }
    if "notifications" !in unsaid {
      TableReadsBack(content, "notifications", levels.notifications);
    }
  }
}
