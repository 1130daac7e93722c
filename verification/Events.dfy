/** Events as decoded field maps, and the getters every rule reads them through. */
module Events {
  import opened Wrappers
  import opened JsonValues
  import opened RoomVersions
  import Text
  import Utf8

  const TYPE_CREATE := "m.room.create"
  const TYPE_MEMBER := "m.room.member"
  const TYPE_POWER_LEVELS := "m.room.power_levels"
  const TYPE_JOIN_RULES := "m.room.join_rules"
  const TYPE_HISTORY_VISIBILITY := "m.room.history_visibility"
  const TYPE_THIRD_PARTY_INVITE := "m.room.third_party_invite"
  const TYPE_REDACTION := "m.room.redaction"

  const MAX_USER_ID_BYTES := 255
  const MAX_AUTH_EVENTS := 10

  datatype EventData = Event(fields: Fields, id: string) {
    function Type(): string {
      StringIn(fields, "type")
    }

    function Sender(): string {
      StringIn(fields, "sender")
    }

    function RoomId(): string {
      StringIn(fields, "room_id")
    }

    function StateKey(): Option<string> {
      if "state_key" in fields && fields["state_key"].String? then Some(fields["state_key"].s) else None
    }

    /** Presence of the field, whatever it holds. */
    predicate IsState() {
      "state_key" in fields
    }

    function Content(): Fields {
      FieldsIn(fields, "content")
    }

    function PrevEvents(): seq<string> {
      Strings(ItemsIn(fields, "prev_events"))
    }

    function AuthEvents(): seq<string> {
      Strings(ItemsIn(fields, "auth_events"))
    }

    function Depth(): int {
      if "depth" in fields && fields["depth"].Number? then fields["depth"].n else 0
    }

    function OriginServerTs(): int {
      if "origin_server_ts" in fields && fields["origin_server_ts"].Number?
      then fields["origin_server_ts"].n else 0
    }
  }

  /** Every event's id starts with a sigil, so it is never empty. */
  type Event = e: EventData | e.id != "" witness Event(map[], "$")

  /** Event ids are hashes of the events; distinct events are taken to have distinct ids. */
  ghost predicate IdsTellEventsApart(events: set<Event>) {
    forall a, b | a in events && b in events :: a.id == b.id ==> a == b
  }

  /** What a caller fills in before an event is built. */
  datatype EventBuilder = EventBuilder(
    version: RoomVersion,
    roomId: string,
    eventType: string,
    stateKey: Option<string>,
    sender: string,
    content: Fields,
    prevEvents: seq<string>,
    prevDepth: int,
    authEvents: seq<string>,
    originServerTs: int)

  /** The event carries what the builder was given, as far as the rules look. */
  ghost predicate Describes(b: EventBuilder, e: Event) {
    && b.eventType == e.Type()
    && b.stateKey == e.StateKey()
    && b.sender == e.Sender()
    && b.content == e.Content()
  }

  /** A field that is missing or of another type reads as empty, or as zero for a number. */
  lemma MalformedFieldsReadAsEmpty(e: EventData)
    ensures ("sender" in e.fields && e.fields["sender"].String?) || e.Sender() == ""
    ensures ("type" in e.fields && e.fields["type"].String?) || e.Type() == ""
    ensures ("depth" in e.fields && e.fields["depth"].Number?) || e.Depth() == 0
    ensures ("origin_server_ts" in e.fields && e.fields["origin_server_ts"].Number?) || e.OriginServerTs() == 0
    ensures ("prev_events" in e.fields && e.fields["prev_events"].Array?) || e.PrevEvents() == []
  {
  }

  /** The part of a user id after its first colon. */
  function SenderDomain(userId: string): Option<string> {
    var colon := Text.Index(userId, ":");
    if colon.None? || colon.value + 1 == |userId| || !Text.HasPrefix(userId, "@") then None
    else Some(userId[colon.value + 1..])
  }

  predicate IsUserId(id: string) {
    && Text.HasPrefix(id, "@")
    && Utf8.Size(id) <= MAX_USER_ID_BYTES
    && var body := id[1..];
    var colon := Text.Index(body, ":");
    && colon.Some?
    && colon.value + 1 < |body|
    && '\0' !in body[..colon.value]
  }

  lemma FirstColon(s: string, local: string, rest: string)
    requires s == local + ":" + rest && ':' !in local
    ensures Text.Index(s, ":") == Some(|local|) && s[|local| + 1..] == rest && s[..|local|] == local
  {
    assert Text.OccursAt(s, ":", |local|);
    forall i: nat | i < |local|
      ensures !Text.OccursAt(s, ":", i)
    {
      assert s[i..i + 1] == [local[i]];
    }
  }

  lemma ColonSplits(s: string)
    requires Text.Index(s, ":").Some?
    ensures var k := Text.Index(s, ":").value;
            k < |s| && s == s[..k] + ":" + s[k + 1..] && ':' !in s[..k]
  {
    var k := Text.Index(s, ":").value;
    assert s[k..k + 1] == ":";
    forall i: nat | i < k
      ensures s[i] != ':'
    {
      assert s[i..i + 1] == [s[i]] && !Text.OccursAt(s, ":", i);
    }
  }

  /** The domain is what follows the first colon of an id that starts with an at sign. */
  lemma DomainFollowsTheColon(userId: string, domain: string)
    ensures SenderDomain(userId) == Some(domain) <==>
              && "@" <= userId && domain != ""
              && exists local :: userId == local + ":" + domain && ':' !in local
  {
    if Text.Index(userId, ":").Some? {
      ColonSplits(userId);
    }
    if local :| userId == local + ":" + domain && ':' !in local {
      FirstColon(userId, local, domain);
      assert userId[..1] == "@" <==> "@" <= userId;
    }
  }

  /** A user id is an at sign, a local part free of colons and null characters, a colon and a
      server name, 255 bytes at most. */
  lemma UserIdsInWords(id: string)
    ensures IsUserId(id) <==>
              && Utf8.Size(id) <= 255
              && exists local, server :: IsMadeOf(id, local, server)
  {
    if IsUserId(id) {
      ColonSplits(id[1..]);
      var k := Text.Index(id[1..], ":").value;
      assert id[..1] == "@" && id == "@" + id[1..];
      assert IsMadeOf(id, id[1..][..k], id[1..][k + 1..]);
    }
    if local, server :| IsMadeOf(id, local, server) {
      MadeIdsAreUserIds(id, local, server);
    }
  }

  lemma MadeIdsAreUserIds(id: string, local: string, server: string)
    requires IsMadeOf(id, local, server)
    ensures IsUserId(id) <==> Utf8.Size(id) <= 255
  {
    assert id[1..] == local + ":" + server && id[..1] == "@";
    FirstColon(id[1..], local, server);
  }

  ghost predicate IsMadeOf(id: string, local: string, server: string) {
    id == "@" + local + ":" + server && ':' !in local && '\0' !in local && server != ""
  }
}
