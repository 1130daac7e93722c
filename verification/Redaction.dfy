/** The redaction algorithm of room version 11, which both supported versions use. */
module Redaction {
  import opened Wrappers
  import opened JsonValues
  import opened Events

  const TOP_LEVEL := [
    "event_id", "type", "room_id", "sender", "state_key", "content", "hashes", "signatures",
    "depth", "prev_events", "auth_events", "origin_server_ts"
  ]

  const THIRD_PARTY_INVITE := "third_party_invite"
  const SIGNED := "signed"

  function KeptContentKeys(eventType: string): seq<string> {
    if eventType == TYPE_MEMBER then ["membership", "join_authorised_via_users_server"]
    else if eventType == TYPE_JOIN_RULES then ["join_rule", "allow"]
    else if eventType == TYPE_HISTORY_VISIBILITY then ["history_visibility"]
    else if eventType == TYPE_REDACTION then ["redacts"]
    else if eventType == TYPE_POWER_LEVELS
    then ["ban", "events", "events_default", "invite", "kick", "redact", "state_default", "users", "users_default"]
    else []
  }

  function Keep(m: Fields, keys: seq<string>): Fields {
    map key | key in m && key in keys :: m[key]
  }

  /** The signed part of a third party invite is all of it that stays. */
  function SignedInvite(content: Fields): Option<Json> {
    var invite := FieldsIn(content, THIRD_PARTY_INVITE);
    if SIGNED in invite then Some(Object(map[SIGNED := invite[SIGNED]])) else None
  }

  function RedactContent(eventType: string, content: Fields): Fields {
    if eventType == TYPE_CREATE then content
    else
      var kept := Keep(content, KeptContentKeys(eventType));
      if eventType == TYPE_MEMBER && SignedInvite(content).Some?
      then kept[THIRD_PARTY_INVITE := SignedInvite(content).value]
      else kept
  }

  function Redact(event: Fields): Fields {
    var content := RedactContent(StringIn(event, "type"), FieldsIn(event, "content"));
    Keep(event, TOP_LEVEL)["content" := Object(content)]
  }

  // ----- the algorithm as it runs

  method KeepListed(m: Fields, keys: seq<string>) returns (out: Fields)
    ensures out == Keep(m, keys)
  {
    out := map[];
    for i := 0 to |keys|
      invariant out == Keep(m, keys[..i])
    {
      assert keys[..i + 1] == keys[..i] + [keys[i]];
      if keys[i] in m {
        out := out[keys[i] := m[keys[i]]];
      }
    }
    assert keys[..|keys|] == keys;
  }

  method ComputeRedactedContent(eventType: string, content: Fields) returns (kept: Fields)
    ensures kept == RedactContent(eventType, content)
  {
    if eventType == TYPE_CREATE {
      return content;
    }
    kept := KeepListed(content, KeptContentKeys(eventType));
    if eventType == TYPE_MEMBER && THIRD_PARTY_INVITE in content && content[THIRD_PARTY_INVITE].Object? {
      var invite := content[THIRD_PARTY_INVITE].fields;
      if SIGNED in invite {
        kept := kept[THIRD_PARTY_INVITE := Object(map[SIGNED := invite[SIGNED]])];
      }
    }
  }

  method ComputeRedacted(event: Fields) returns (out: Fields)
    ensures out == Redact(event)
  {
    out := KeepListed(event, TOP_LEVEL);
    var content := ComputeRedactedContent(StringIn(event, "type"), FieldsIn(event, "content"));
    out := out["content" := Object(content)];
  }

  // ----- redacting twice

  lemma ContentRedactionIsIdempotent(eventType: string, content: Fields)
    ensures RedactContent(eventType, RedactContent(eventType, content)) == RedactContent(eventType, content)
  {
  }

  // ----- what version 11 keeps, in the specification's words

  /** Besides its content a redacted event has exactly those of the eleven other fields on the
      list that it had, with their values. */
  lemma RedactionKeepsTheseFields(event: Fields, key: string)
    requires key != "content"
    ensures key in Redact(event) <==>
              key in event && key in {"event_id", "type", "room_id", "sender", "state_key", "hashes", "signatures",
                                      "depth", "prev_events", "auth_events", "origin_server_ts"}
    ensures key in Redact(event) ==> Redact(event)[key] == event[key]
  {
    var list := TOP_LEVEL;
    assert list[0] == "event_id" && list[1] == "type" && list[2] == "room_id" && list[3] == "sender";
    assert list[4] == "state_key" && list[5] == "content" && list[6] == "hashes" && list[7] == "signatures";
    assert list[8] == "depth" && list[9] == "prev_events" && list[10] == "auth_events"
        && list[11] == "origin_server_ts";
  }

  /** The content keys version 11 keeps for a type of event. */
  ghost predicate IsKeptContent(eventType: string, key: string) {
    || (eventType == "m.room.member" && key in {"membership", "join_authorised_via_users_server"})
    || (eventType == "m.room.join_rules" && key in {"join_rule", "allow"})
    || (eventType == "m.room.history_visibility" && key == "history_visibility")
    || (eventType == "m.room.redaction" && key == "redacts")
    || (eventType == "m.room.power_levels"
        && key in {"ban", "events", "events_default", "invite", "kick", "redact", "state_default", "users",
                   "users_default"})
  }

  lemma ListedKeysAreKept(eventType: string, key: string)
    ensures key in KeptContentKeys(eventType) <==> IsKeptContent(eventType, key)
  {
    var types := [TYPE_MEMBER, TYPE_JOIN_RULES, TYPE_HISTORY_VISIBILITY, TYPE_REDACTION, TYPE_POWER_LEVELS];
    assert types[0][7] == 'm' && types[1][7] == 'j' && types[2][7] == 'h' && types[3][7] == 'r' && types[4][7] == 'p';
    var keys := KeptContentKeys(eventType);
    if eventType == TYPE_POWER_LEVELS {
      assert keys[0] == "ban" && keys[1] == "events" && keys[2] == "events_default" && keys[3] == "invite";
      assert keys[4] == "kick" && keys[5] == "redact" && keys[6] == "state_default" && keys[7] == "users";
      assert keys[8] == "users_default" && |keys| == 9;
    } else if eventType == TYPE_MEMBER || eventType == TYPE_JOIN_RULES {
      assert |keys| == 2 && keys == [keys[0], keys[1]];
    } else {
      assert |keys| <= 1 && (|keys| == 1 ==> keys == [keys[0]]);
    }
  }

  /** A create event keeps its content whole.  Any other keeps what its type's list names; a
      membership event also the signed part, and only that, of a third party invite. */
  lemma RedactionKeepsThisContent(event: Fields, key: string)
    ensures "content" in Redact(event) && Redact(event)["content"].Object?
    ensures var eventType, content := StringIn(event, "type"), FieldsIn(event, "content");
            var kept := Redact(event)["content"].fields;
            && (eventType == "m.room.create" ==> kept == content)
            && (eventType == "m.room.member" && key == "third_party_invite" ==>
                  (key in kept <==> HasSigned(content))
                  && (key in kept ==> kept[key] == Object(map["signed" := content[key].fields["signed"]])))
            && (eventType != "m.room.create" && !(eventType == "m.room.member" && key == "third_party_invite") ==>
                  (key in kept <==> key in content && IsKeptContent(eventType, key))
                  && (key in kept ==> kept[key] == content[key]))
  {
    var eventType, content := StringIn(event, "type"), FieldsIn(event, "content");
    ListedKeysAreKept(eventType, key);
    assert TYPE_CREATE[7] == 'c' && TYPE_MEMBER[7] == 'm';
    assert Redact(event)["content"] == Object(RedactContent(eventType, content));
  }

  ghost predicate HasSigned(content: Fields) {
    && "third_party_invite" in content && content["third_party_invite"].Object?
    && "signed" in content["third_party_invite"].fields
  }

  /** The fields a redacted event is recognised by. */
  lemma RedactKeepsTypeAndContent(event: Fields)
    ensures StringIn(Redact(event), "type") == StringIn(event, "type")
    ensures FieldsIn(Redact(event), "content") == RedactContent(StringIn(event, "type"), FieldsIn(event, "content"))
  {
  }

  /** Redacting a redacted event changes nothing, whatever its content was. */
  lemma RedactionIsIdempotent(event: Fields)
    ensures Redact(Redact(event)) == Redact(event)
  {
    var once, eventType, content := Redact(event), StringIn(event, "type"), FieldsIn(event, "content");
    RedactKeepsTypeAndContent(event);
    ContentRedactionIsIdempotent(eventType, content);
    assert TOP_LEVEL[5] == "content";
    assert Keep(once, TOP_LEVEL) == once;
    assert once["content" := once["content"]] == once;
  }

  /** An event as it is kept once redacted; it goes by the same id. */
  function Redacted(e: Event): Event {
    Event(Redact(e.fields), e.id)
  }
}
