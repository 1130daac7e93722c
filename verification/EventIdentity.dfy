/** Building an event, and what its hash, id and signature survive. */
module EventIdentity {
  import opened Wrappers
  import opened JsonValues
  import opened RoomVersions
  import opened Events
  import opened CanonicalJson
  import opened CanonicalForm
  import opened Redaction
  import opened Signing
  import Utf8

  const MAX_EVENT_BYTES := 65536
  const MAX_FIELD_BYTES := 255
  const MAX_PREV_EVENTS := 20
  const MAX_DEPTH := 9007199254740991

  const HASHES := "hashes"
  const SHA256 := "sha256"

  datatype BuildError =
    | BuilderIncomplete
    | CreateHasPrev
    | MissingRoomId
    | ForkedGraph
    | NotWritable
    | OverLimit

  // ----- hashes and ids

  /** What the content hash covers. */
  function Hashed(fields: Fields): Fields {
    fields - {UNSIGNED, SIGNATURES, HASHES}
  }

  ghost function ContentHash(suite: Suite, fields: Fields): string {
    suite.encode(suite.digest(TextOf(Object(Hashed(fields)))))
  }

  /** What the event id is derived from. */
  function Referenced(fields: Fields): Fields {
    Redact(fields) - {SIGNATURES, UNSIGNED}
  }

  ghost function IdOf(suite: Suite, fields: Fields): string {
    "$" + suite.encodeId(suite.digest(TextOf(Object(Referenced(fields)))))
  }

  ghost predicate ContentHashHolds(suite: Suite, e: Event) {
    var claimed := StringIn(FieldsIn(e.fields, HASHES), SHA256);
    claimed != "" && Writable(Object(Hashed(e.fields))) && claimed == ContentHash(suite, e.fields)
  }

  /** The object whose signature is checked: the redacted event with its signatures put back. */
  function SignedForm(fields: Fields): Fields {
    Redact(fields)[SIGNATURES := if SIGNATURES in fields then fields[SIGNATURES] else Null]
  }

  ghost predicate SignatureHolds(suite: Suite, e: Event, server: string, keyId: string, publicKey: string) {
    Verify(suite, SignedForm(e.fields), server, keyId, publicKey).None?
  }

  method ComputeContentHash(suite: Suite, fields: Fields) returns (hash: Result<string, WriteError>)
    ensures hash.Ok? <==> Writable(Object(Hashed(fields)))
    ensures hash.Ok? ==> hash.value == ContentHash(suite, fields)
  {
    var stripped := fields;
    stripped := stripped - {UNSIGNED};
    stripped := stripped - {SIGNATURES};
    stripped := stripped - {HASHES};
    assert stripped == Hashed(fields);
    var canonical := Canonical(Object(stripped));
    if canonical.Err? {
      return Err(canonical.error);
    }
    return Ok(suite.encode(suite.digest(canonical.value)));
  }

  method ComputeId(suite: Suite, fields: Fields) returns (id: Result<string, WriteError>)
    ensures id.Ok? <==> Writable(Object(Referenced(fields)))
    ensures id.Ok? ==> id.value == IdOf(suite, fields)
  {
    var redacted := ComputeRedacted(fields);
    redacted := redacted - {SIGNATURES};
    redacted := redacted - {UNSIGNED};
    assert redacted == Referenced(fields);
    var canonical := Canonical(Object(redacted));
    if canonical.Err? {
      return Err(canonical.error);
    }
    return Ok("$" + suite.encodeId(suite.digest(canonical.value)));
  }

  method VerifyContentHash(suite: Suite, e: Event) returns (ok: bool)
    ensures ok == ContentHashHolds(suite, e)
  {
    var claimed := StringIn(FieldsIn(e.fields, HASHES), SHA256);
    if claimed == "" {
      return false;
    }
    var expected := ComputeContentHash(suite, e.fields);
    return expected.Ok? && claimed == expected.value;
  }

  method VerifySignature(suite: Suite, e: Event, server: string, keyId: string, publicKey: string) returns (ok: bool)
    ensures ok == SignatureHolds(suite, e, server, keyId, publicKey)
  {
    var redacted := ComputeRedacted(e.fields);
    redacted := redacted[SIGNATURES := if SIGNATURES in e.fields then e.fields[SIGNATURES] else Null];
    var error := VerifyJson(suite, redacted, server, keyId, publicKey);
    return error.None?;
  }

  // ----- parsing an event

  const FIELD_LIMITS := ["sender", "room_id", "state_key", "type", "event_id"]

  ghost predicate WithinLimits(fields: Fields, version: RoomVersion) {
    && Utf8.Size(TextOf(Object(fields))) <= MAX_EVENT_BYTES
    && (forall i | 0 <= i < |FIELD_LIMITS| :: Utf8.Size(StringIn(fields, FIELD_LIMITS[i])) <= MAX_FIELD_BYTES)
    && |Strings(ItemsIn(fields, "prev_events"))| <= MAX_PREV_EVENTS
    && |Strings(ItemsIn(fields, "auth_events"))| <= MAX_AUTH_EVENTS
    && (StringIn(fields, "type") == TYPE_CREATE ==> (("room_id" in fields) <==> version.createCarriesRoomId))
  }

  lemma StringsFrom(items: seq<Json>, i: nat)
    requires i < |items|
    ensures Strings(items[i..]) == (if items[i].String? then [items[i].s] else []) + Strings(items[i + 1..])
  {
    assert items[i..][0] == items[i] && items[i..][1..] == items[i + 1..];
  }

  method ListIds(fields: Fields, key: string) returns (ids: seq<string>)
    ensures ids == Strings(ItemsIn(fields, key))
  {
    var items := ItemsIn(fields, key);
    ids := [];
    for i := 0 to |items|
      invariant ids + Strings(items[i..]) == Strings(items)
    {
      StringsFrom(items, i);
      if items[i].String? {
        ids := ids + [items[i].s];
      }
    }
  }

  method CheckLimits(fields: Fields, text: string, version: RoomVersion) returns (ok: bool)
    requires text == TextOf(Object(fields))
    ensures ok == WithinLimits(fields, version)
  {
    if Utf8.Size(text) > MAX_EVENT_BYTES {
      return false;
    }
    for i := 0 to |FIELD_LIMITS|
      invariant forall k | 0 <= k < i :: Utf8.Size(StringIn(fields, FIELD_LIMITS[k])) <= MAX_FIELD_BYTES
    {
      if Utf8.Size(StringIn(fields, FIELD_LIMITS[i])) > MAX_FIELD_BYTES {
        return false;
      }
    }
    var prev := ListIds(fields, "prev_events");
    var auth := ListIds(fields, "auth_events");
    return && |prev| <= MAX_PREV_EVENTS
           && |auth| <= MAX_AUTH_EVENTS
           && (StringIn(fields, "type") == TYPE_CREATE ==> (("room_id" in fields) == version.createCarriesRoomId));
  }

  /** Parsing succeeds exactly on writable fields within the limits, and derives the id. */
  method NewEvent(suite: Suite, fields: Fields, version: RoomVersion) returns (result: Result<Event, BuildError>)
    ensures result.Ok? <==> Writable(Object(fields)) && WithinLimits(fields, version)
    ensures result.Ok? ==> result.value.fields == fields && result.value.id == IdOf(suite, fields)
  {
    var text := Canonical(Object(fields));
    if text.Err? {
      return Err(NotWritable);
    }
    var ok := CheckLimits(fields, text.value, version);
    if !ok {
      return Err(OverLimit);
    }
    RedactionStaysWritable(fields);
    var id := ComputeId(suite, fields);
    assert id.value[0] == '$';
    return Ok(Event(fields, id.value));
  }

  lemma RedactionStaysWritable(fields: Fields)
    requires Writable(Object(fields))
    ensures Writable(Object(Redact(fields))) && Writable(Object(Referenced(fields)))
  {
    var content, eventType := FieldsIn(fields, "content"), StringIn(fields, "type");
    assert Writable(Object(content));
    var invite := FieldsIn(content, THIRD_PARTY_INVITE);
    assert Writable(Object(invite));
    if SIGNED in invite {
      assert Writable(invite[SIGNED]);
      assert Writable(Object(map[SIGNED := invite[SIGNED]]));
    }
    assert Writable(Object(RedactContent(eventType, content)));
  }

  // ----- building

  function Check(b: EventBuilder): Option<BuildError> {
    if b.eventType == "" || b.sender == "" then Some(BuilderIncomplete)
    else if b.eventType == TYPE_CREATE then if b.prevEvents != [] then Some(CreateHasPrev) else None
    else if b.roomId == "" then Some(MissingRoomId)
    else if |b.prevEvents| != 1 then Some(ForkedGraph)
    else None
  }

  function Depth(b: EventBuilder): int {
    if b.eventType == TYPE_CREATE then 1
    else if b.prevDepth >= MAX_DEPTH then MAX_DEPTH
    else b.prevDepth + 1
  }

  function StringItems(ids: seq<string>): seq<Json> {
    seq(|ids|, i requires 0 <= i < |ids| => String(ids[i]))
  }

  /** The fields an event starts with, before it is hashed and signed. */
  function BaseFields(b: EventBuilder): Fields {
    map["type" := String(b.eventType), "sender" := String(b.sender), "content" := Object(b.content),
        "depth" := Number(Depth(b)), "prev_events" := Array(StringItems(b.prevEvents)),
        "auth_events" := Array(StringItems(b.authEvents)), "origin_server_ts" := Number(b.originServerTs)]
    + (if b.stateKey.Some? then map["state_key" := String(b.stateKey.value)] else map[])
    + (if b.eventType != TYPE_CREATE || b.version.createCarriesRoomId
       then map["room_id" := String(b.roomId)] else map[])
  }

  /** The event names the predecessors, the citations, the time and, where it carries one, the
      room the builder was given, and is one deeper than its predecessor as far as depths go. */
  ghost predicate Carries(b: EventBuilder, e: Event) {
    && e.PrevEvents() == b.prevEvents
    && e.AuthEvents() == b.authEvents
    && e.OriginServerTs() == b.originServerTs
    && (b.eventType != "m.room.create" || b.version.createCarriesRoomId ==> e.RoomId() == b.roomId)
    && (b.eventType == "m.room.create" ==> e.Depth() == 1)
    && (b.eventType != "m.room.create" ==>
          && e.Depth() <= 9007199254740991
          && (e.Depth() == b.prevDepth + 1 || b.prevDepth >= e.Depth() == 9007199254740991))
  }

  lemma StringsOfItems(ids: seq<string>)
    ensures Strings(StringItems(ids)) == ids
  {
    if ids != [] {
      StringsOfItems(ids[1..]);
      assert StringItems(ids)[1..] == StringItems(ids[1..]);
    }
  }

  /** Hashing and signing leave the other fields alone. */
  lemma BuiltFieldsExtend(base: Fields, hashes: Json, signatures: Json)
    requires HASHES !in base && SIGNATURES !in base
    ensures Extends(base[HASHES := hashes][SIGNATURES := signatures], base)
  {
  }

  ghost predicate Extends(fields: Fields, base: Fields) {
    && base.Keys <= fields.Keys
    && (forall key | key in base :: fields[key] == base[key])
    && ("state_key" in fields ==> "state_key" in base)
  }

  lemma BaseFieldsSayTheSame(b: EventBuilder, fields: Fields, id: string)
    requires Extends(fields, BaseFields(b)) && id != ""
    ensures Describes(b, Event(fields, id)) && Carries(b, Event(fields, id))
  {
    StringsOfItems(b.prevEvents);
    StringsOfItems(b.authEvents);
    BaseFieldValues(b);
    BaseFieldPlacement(b);
    var base := BaseFields(b);
    assert fields["type"] == base["type"] && fields["sender"] == base["sender"] && fields["content"] == base["content"];
    assert fields["prev_events"] == base["prev_events"] && fields["auth_events"] == base["auth_events"];
    if "state_key" in base {
      assert fields["state_key"] == base["state_key"];
    }
    if "room_id" in base {
      assert fields["room_id"] == base["room_id"];
    }
    assert fields["origin_server_ts"] == base["origin_server_ts"] && fields["depth"] == base["depth"];
  }

  lemma BaseFieldValues(b: EventBuilder)
    ensures var base := BaseFields(b);
            && "type" in base && base["type"] == String(b.eventType)
            && "sender" in base && base["sender"] == String(b.sender)
            && "content" in base && base["content"] == Object(b.content)
            && ("state_key" in base <==> b.stateKey.Some?)
            && (b.stateKey.Some? ==> base["state_key"] == String(b.stateKey.value))
  {
  }

  lemma BaseFieldPlacement(b: EventBuilder)
    ensures var base := BaseFields(b);
            && "prev_events" in base && base["prev_events"] == Array(StringItems(b.prevEvents))
            && "auth_events" in base && base["auth_events"] == Array(StringItems(b.authEvents))
            && "origin_server_ts" in base && base["origin_server_ts"] == Number(b.originServerTs)
            && "depth" in base && base["depth"] == Number(Depth(b))
            && (b.eventType != TYPE_CREATE || b.version.createCarriesRoomId ==>
                  "room_id" in base && base["room_id"] == String(b.roomId))
  {
  }

  ghost function HashedFields(suite: Suite, b: EventBuilder): Fields {
    BaseFields(b)[HASHES := Object(map[SHA256 := String(ContentHash(suite, BaseFields(b)))])]
  }

  /** The fields of the event that building produces. */
  ghost function BuiltFields(suite: Suite, b: EventBuilder, server: string, keyId: string, key: string): Fields {
    var hashed := HashedFields(suite, b);
    hashed[SIGNATURES := Signed(suite, Redact(hashed), server, keyId, key)[SIGNATURES]]
  }

  /** Fills the fields in, hashes them, signs the redacted form and parses the result.  It
      succeeds on every complete builder whose numbers are safe and whose event is within the
      limits, and the event it returns passes both verifications. */
  method Build(suite: Suite, b: EventBuilder, server: string, keyId: string, key: string)
    returns (result: Result<Event, BuildError>)
    requires Sound(suite)
    ensures Check(b).Some? ==> result == Err(Check(b).value)
    ensures result.Ok? <==> && Check(b).None? && Writable(Object(BaseFields(b)))
                            && WithinLimits(BuiltFields(suite, b, server, keyId, key), b.version)
    ensures result.Ok? ==>
              && result.value.fields == BuiltFields(suite, b, server, keyId, key)
              && result.value.id == IdOf(suite, result.value.fields)
              && Describes(b, result.value) && Carries(b, result.value)
              && ContentHashHolds(suite, result.value)
              && SignatureHolds(suite, result.value, server, keyId, suite.publicKey(key))
  {
    if Check(b).Some? {
      return Err(Check(b).value);
    }
    var fields := FillIn(b);
    result := Seal(suite, b, fields, server, keyId, key);
  }

  /** The part of building that lays the fields out. */
  method FillIn(b: EventBuilder) returns (fields: Fields)
    ensures fields == BaseFields(b)
  {
    fields := map["type" := String(b.eventType), "sender" := String(b.sender), "content" := Object(b.content),
                  "depth" := Number(Depth(b)), "prev_events" := Array(StringItems(b.prevEvents)),
                  "auth_events" := Array(StringItems(b.authEvents)), "origin_server_ts" := Number(b.originServerTs)];
    if b.stateKey.Some? {
      fields := fields["state_key" := String(b.stateKey.value)];
    }
    if b.eventType != TYPE_CREATE || b.version.createCarriesRoomId {
      fields := fields["room_id" := String(b.roomId)];
    }
  }

  /** The part of building that hashes, signs and parses. */
  method Seal(suite: Suite, b: EventBuilder, base: Fields, server: string, keyId: string, key: string)
    returns (result: Result<Event, BuildError>)
    requires Sound(suite) && base == BaseFields(b)
    ensures result.Ok? <==> Writable(Object(base)) && WithinLimits(BuiltFields(suite, b, server, keyId, key), b.version)
    ensures result.Ok? ==>
              && result.value.fields == BuiltFields(suite, b, server, keyId, key)
              && result.value.id == IdOf(suite, result.value.fields)
              && Describes(b, result.value) && Carries(b, result.value)
              && ContentHashHolds(suite, result.value)
              && SignatureHolds(suite, result.value, server, keyId, suite.publicKey(key))
  {
    BaseFieldNames(b);
    assert Hashed(base) == base;
    var hash := ComputeContentHash(suite, base);
    if hash.Err? {
      return Err(NotWritable);
    }
    var fields := base[HASHES := Object(map[SHA256 := String(hash.value)])];
    BuiltFieldsAreWritable(suite, b, server, keyId, key);
    var redacted := ComputeRedacted(fields);
    var signed := SignJson(suite, redacted, server, keyId, key);
    fields := fields[SIGNATURES := signed.value[SIGNATURES]];
    result := NewEvent(suite, fields, b.version);
    if result.Ok? {
      BuiltEventsAreSound(suite, b, server, keyId, key, result.value);
    }
  }

  lemma BuiltFieldsAreWritable(suite: Suite, b: EventBuilder, server: string, keyId: string, key: string)
    requires Writable(Object(BaseFields(b)))
    ensures Writable(Object(Payload(Redact(HashedFields(suite, b)))))
    ensures Writable(Object(BuiltFields(suite, b, server, keyId, key)))
  {
    var hashed := HashedFields(suite, b);
    assert Writable(Object(map[SHA256 := String(ContentHash(suite, BaseFields(b)))]));
    assert Writable(Object(hashed));
    RedactionStaysWritable(hashed);
    WritableWithout(Redact(hashed), {SIGNATURES, UNSIGNED});
    SignaturesStayWritable(suite, Redact(hashed), server, keyId, key);
  }

  lemma SignaturesStayWritable(suite: Suite, m: Fields, server: string, keyId: string, key: string)
    requires Writable(Object(m))
    ensures Writable(Signed(suite, m, server, keyId, key)[SIGNATURES])
  {
    var all, own := FieldsIn(m, SIGNATURES), SignaturesBy(m, server);
    assert Writable(Object(all));
    assert Writable(Object(own));
    var signature := String(suite.encode(suite.sign(key, TextOf(Object(Payload(m))))));
    assert Writable(Object(own[keyId := signature]));
    assert Writable(Object(all[server := Object(own[keyId := signature])]));
  }

  lemma BaseFieldNames(b: EventBuilder)
    ensures HASHES !in BaseFields(b) && SIGNATURES !in BaseFields(b) && UNSIGNED !in BaseFields(b)
    ensures HASHES != SIGNATURES && SIGNATURES != "state_key" && HASHES != "state_key" && UNSIGNED != HASHES
  {
  }

  lemma BuiltEventsAreSound(suite: Suite, b: EventBuilder, server: string, keyId: string, key: string, e: Event)
    requires Sound(suite) && Writable(Object(e.fields)) && e.fields == BuiltFields(suite, b, server, keyId, key)
    requires Writable(Object(Payload(Redact(HashedFields(suite, b)))))
    ensures Describes(b, e) && Carries(b, e)
    ensures ContentHashHolds(suite, e)
    ensures SignatureHolds(suite, e, server, keyId, suite.publicKey(key))
  {
    var base, hashed := BaseFields(b), HashedFields(suite, b);
    BaseFieldNames(b);
    BuiltFieldsExtend(base, hashed[HASHES], e.fields[SIGNATURES]);
    BaseFieldsSayTheSame(b, e.fields, e.id);
    BuiltHashHolds(suite, base, e.fields[SIGNATURES], e);
    BuiltSignatureHolds(suite, HashedFields(suite, b), server, keyId, key, e);
  }

  lemma BuiltHashHolds(suite: Suite, base: Fields, signatures: Json, e: Event)
    requires Sound(suite) && Writable(Object(e.fields))
    requires HASHES !in base && SIGNATURES !in base && UNSIGNED !in base && HASHES != SIGNATURES
    requires e.fields
          == base[HASHES := Object(map[SHA256 := String(ContentHash(suite, base))])][SIGNATURES := signatures]
    ensures ContentHashHolds(suite, e)
  {
    HashingSkipsItsOwnFields(base, e.fields[HASHES], signatures);
    WritableWithout(e.fields, {UNSIGNED, SIGNATURES, HASHES});
    assert FieldsIn(e.fields, HASHES) == map[SHA256 := String(ContentHash(suite, base))];
  }

  lemma HashingSkipsItsOwnFields(base: Fields, hashes: Json, signatures: Json)
    requires HASHES !in base && SIGNATURES !in base && UNSIGNED !in base
    ensures Hashed(base) == base == Hashed(base[HASHES := hashes][SIGNATURES := signatures])
  {
  }

  lemma WritableWithout(fields: Fields, keys: set<string>)
    requires Writable(Object(fields))
    ensures Writable(Object(fields - keys))
  {
  }

  /** The text signed before the signatures were attached is the one re-derived from the stored
      event. */
  lemma SignedTextIsRederived(hashed: Fields, signatures: Json)
    ensures Payload(SignedForm(hashed[SIGNATURES := signatures])) == Payload(Redact(hashed))
  {
    var stored := hashed[SIGNATURES := signatures];
    assert hashed - {SIGNATURES} == stored - {SIGNATURES};
    SignaturesPassThroughRedaction(hashed, stored);
    assert Payload(SignedForm(stored)) == Payload(Redact(stored));
  }

  lemma BuiltSignatureHolds(suite: Suite, hashed: Fields, server: string, keyId: string, key: string, e: Event)
    requires Sound(suite) && Writable(Object(Payload(Redact(hashed))))
    requires e.fields == hashed[SIGNATURES := Signed(suite, Redact(hashed), server, keyId, key)[SIGNATURES]]
    ensures SignatureHolds(suite, e, server, keyId, suite.publicKey(key))
  {
    var redacted := Redact(hashed);
    var signed, form := Signed(suite, redacted, server, keyId, key), SignedForm(e.fields);
    SignedTextIsRederived(hashed, signed[SIGNATURES]);
    SigningThenVerifying(suite, redacted, server, keyId, key, server, keyId, key);
    SigningKeepsThePayload(suite, redacted, server, keyId, key);
    VerifyReadsTwoParts(suite, form, signed, server, keyId, suite.publicKey(key));
  }

  lemma SameApartFromSignatures(before: Fields, after: Fields, key: string)
    requires before - {SIGNATURES} == after - {SIGNATURES} && key != SIGNATURES
    ensures (key in before <==> key in after) && (key in before ==> before[key] == after[key])
  {
    assert key in before <==> key in before - {SIGNATURES};
    assert key in after <==> key in after - {SIGNATURES};
    if key in before {
      assert (before - {SIGNATURES})[key] == (after - {SIGNATURES})[key];
    }
  }

  /** Redaction neither reads nor touches the signatures. */
  lemma SignaturesPassThroughRedaction(before: Fields, after: Fields)
    requires before - {SIGNATURES} == after - {SIGNATURES}
    ensures Payload(Redact(before)) == Payload(Redact(after))
  {
    assert "type"[0] != SIGNATURES[0] && "content"[0] != SIGNATURES[0];
    SameApartFromSignatures(before, after, "type");
    SameApartFromSignatures(before, after, "content");
    KeepingPassesSignaturesBy(before, after, TOP_LEVEL);
    var content := Object(RedactContent(StringIn(before, "type"), FieldsIn(before, "content")));
    PayloadDropsSignatures(Keep(before, TOP_LEVEL), Keep(after, TOP_LEVEL), "content", content);
  }

  lemma PayloadDropsSignatures(before: Fields, after: Fields, key: string, value: Json)
    requires before - {SIGNATURES} == after - {SIGNATURES}
    ensures Payload(before[key := value]) == Payload(after[key := value])
  {
    forall other | other != SIGNATURES
      ensures (other in before <==> other in after) && (other in before ==> before[other] == after[other])
    {
      SameApartFromSignatures(before, after, other);
    }
  }

  lemma KeepingPassesSignaturesBy(before: Fields, after: Fields, keys: seq<string>)
    requires before - {SIGNATURES} == after - {SIGNATURES}
    ensures Keep(before, keys) - {SIGNATURES} == Keep(after, keys) - {SIGNATURES}
  {
    forall key | key != SIGNATURES
      ensures key in Keep(before, keys) <==> key in Keep(after, keys)
      ensures key in Keep(before, keys) ==> Keep(before, keys)[key] == Keep(after, keys)[key]
    {
      SameApartFromSignatures(before, after, key);
    }
  }

  // ----- what redaction preserves

  /** The id derived from a redacted event is the id of the original. */
  lemma IdSurvivesRedaction(suite: Suite, e: Event)
    ensures IdOf(suite, Redact(e.fields)) == IdOf(suite, e.fields)
    ensures Redacted(Redacted(e)) == Redacted(e)
  {
    RedactionIsIdempotent(e.fields);
  }

  /** A signature holds on an event exactly when it holds on the redacted one. */
  lemma SignatureSurvivesRedaction(suite: Suite, e: Event, server: string, keyId: string, publicKey: string)
    ensures SignatureHolds(suite, Redacted(e), server, keyId, publicKey)
       <==> SignatureHolds(suite, e, server, keyId, publicKey)
  {
    RedactionIsIdempotent(e.fields);
    assert TOP_LEVEL[7] == SIGNATURES;
    assert "content"[0] != SIGNATURES[0];
    assert SIGNATURES in Redact(e.fields) <==> SIGNATURES in e.fields;
  }

  /** The content hash is meant to expose a redaction: an event whose hash holds keeps it
      exactly when redacting removed nothing that was hashed. */
  lemma ContentHashExposesRedaction(suite: Suite, e: Event)
    requires CollisionFree(suite) && ContentHashHolds(suite, e)
    ensures ContentHashHolds(suite, Redacted(e)) <==> Hashed(Redact(e.fields)) == Hashed(e.fields)
  {
    assert TOP_LEVEL[6] == HASHES;
    assert "content"[0] != HASHES[0];
    assert FieldsIn(Redact(e.fields), HASHES) == FieldsIn(e.fields, HASHES);
    if ContentHashHolds(suite, Redacted(e)) {
      CanonicalTextIsInjective(Object(Hashed(Redact(e.fields))), Object(Hashed(e.fields)));
    }
  }

  /** Events share an id exactly when they redact to the same thing, signatures aside. */
  lemma IdsIdentifyRedactedEvents(suite: Suite, e: Fields, f: Fields)
    requires CollisionFree(suite)
    ensures IdOf(suite, e) == IdOf(suite, f) <==> Referenced(e) == Referenced(f)
  {
    if IdOf(suite, e) == IdOf(suite, f) {
      assert IdOf(suite, e)[1..] == IdOf(suite, f)[1..];
      CanonicalTextIsInjective(Object(Referenced(e)), Object(Referenced(f)));
    }
  }

  // ----- limits and fields, in the specification's words

  lemma LimitsInWords(fields: Fields, version: RoomVersion)
    ensures WithinLimits(fields, version) <==>
              && Utf8.Size(TextOf(Object(fields))) <= 65536
              && Utf8.Size(StringIn(fields, "sender")) <= 255 && Utf8.Size(StringIn(fields, "room_id")) <= 255
              && Utf8.Size(StringIn(fields, "state_key")) <= 255 && Utf8.Size(StringIn(fields, "type")) <= 255
              && Utf8.Size(StringIn(fields, "event_id")) <= 255
              && |Strings(ItemsIn(fields, "prev_events"))| <= 20 && |Strings(ItemsIn(fields, "auth_events"))| <= 10
              && (StringIn(fields, "type") == "m.room.create" ==>
                    (("room_id" in fields) <==> version.createCarriesRoomId))
  {
    NamedFieldsWithin(fields, MAX_FIELD_BYTES);
  }

  lemma NamedFieldsWithin(fields: Fields, limit: nat)
    ensures (forall i | 0 <= i < |FIELD_LIMITS| :: Utf8.Size(StringIn(fields, FIELD_LIMITS[i])) <= limit) <==>
              && Utf8.Size(StringIn(fields, "sender")) <= limit && Utf8.Size(StringIn(fields, "room_id")) <= limit
              && Utf8.Size(StringIn(fields, "state_key")) <= limit && Utf8.Size(StringIn(fields, "type")) <= limit
              && Utf8.Size(StringIn(fields, "event_id")) <= limit
  {
    var keys := FIELD_LIMITS;
    assert keys[0] == "sender" && keys[1] == "room_id" && keys[2] == "state_key" && keys[3] == "type";
    assert keys[4] == "event_id" && |keys| == 5;
  }

  /** The content hash is spelled in the usual alphabet of base64 and the id, after its sigil, in the
      one for URLs; an event holds its hash when that is the text under these two names. */
  lemma HashesInWords(suite: Suite, e: Event, hashed: Json, referenced: Json)
    requires hashed == Object(e.fields - {"unsigned", "signatures", "hashes"})
    requires referenced == Object(Redact(e.fields) - {"signatures", "unsigned"})
    ensures ContentHash(suite, e.fields) == suite.encode(suite.digest(TextOf(hashed)))
    ensures IdOf(suite, e.fields) == "$" + suite.encodeId(suite.digest(TextOf(referenced)))
    ensures ContentHashHolds(suite, e) <==>
              && Writable(hashed) && suite.encode(suite.digest(TextOf(hashed))) != ""
              && "hashes" in e.fields && e.fields["hashes"].Object? && "sha256" in e.fields["hashes"].fields
              && e.fields["hashes"].fields["sha256"] == String(suite.encode(suite.digest(TextOf(hashed))))
  {
    assert hashed.fields == Hashed(e.fields) && referenced.fields == Referenced(e.fields);
  }

  /** A builder is complete when it names a type and a sender and, but for a create event without
      predecessors, a room and one predecessor. */
  lemma CompletenessInWords(b: EventBuilder)
    ensures Check(b).None? <==>
              && b.eventType != "" && b.sender != ""
              && if b.eventType == "m.room.create" then b.prevEvents == [] else b.roomId != "" && |b.prevEvents| == 1
    ensures Check(b) == Some(BuilderIncomplete) <==> b.eventType == "" || b.sender == ""
    ensures Check(b) == Some(CreateHasPrev) ==> b.eventType == "m.room.create" && b.prevEvents != []
    ensures Check(b) == Some(MissingRoomId) ==> b.eventType != "m.room.create" && b.roomId == ""
    ensures Check(b) == Some(ForkedGraph) ==> b.eventType != "m.room.create" && b.roomId != "" && |b.prevEvents| != 1
    ensures Check(b) !in {Some(NotWritable), Some(OverLimit)}
  {
  }

  /** A built event has these fields and no others, its hash and its signature where they belong. */
  lemma BuiltFieldsInWords(suite: Suite, b: EventBuilder, server: string, keyId: string, key: string)
    ensures var fields := BuiltFields(suite, b, server, keyId, key);
            && fields.Keys == {"type", "sender", "content", "depth", "prev_events", "auth_events", "origin_server_ts",
                               "hashes", "signatures"}
                              + (if b.stateKey.Some? then {"state_key"} else {})
                              + (if b.eventType != "m.room.create" || b.version.createCarriesRoomId
                                 then {"room_id"} else {})
            && fields["hashes"] == Object(map["sha256" := String(ContentHash(suite, BaseFields(b)))])
            && fields["signatures"] == Signed(suite, Redact(HashedFields(suite, b)), server, keyId, key)["signatures"]
  {
    BaseFieldNames(b);
    BaseKeys(b);
  }

  lemma BaseKeys(b: EventBuilder)
    ensures BaseFields(b).Keys
         == {"type", "sender", "content", "depth", "prev_events", "auth_events", "origin_server_ts"}
            + (if b.stateKey.Some? then {"state_key"} else {})
            + (if b.eventType != "m.room.create" || b.version.createCarriesRoomId then {"room_id"} else {})
  {
  }

  // ----- what hashes and ids are of, in the specification's words

  /** Two events have the same content hash exactly when they agree on every field but these
      three. */
  lemma ContentHashCoversTheRest(suite: Suite, e: Fields, f: Fields)
    requires CollisionFree(suite)
    ensures ContentHash(suite, e) == ContentHash(suite, f) <==>
              forall key | key !in {"unsigned", "signatures", "hashes"} :: SameField(e, f, key)
  {
    SameRest(e, f, {UNSIGNED, SIGNATURES, HASHES});
    if ContentHash(suite, e) == ContentHash(suite, f) {
      CanonicalTextIsInjective(Object(Hashed(e)), Object(Hashed(f)));
    }
  }

  /** The fields an id covers besides the content. */
  ghost predicate IsEnvelope(key: string) {
    key in {"event_id", "type", "room_id", "sender", "state_key", "hashes", "depth",
            "prev_events", "auth_events", "origin_server_ts"}
  }

  /** Two events have the same id exactly when they agree on these ten fields and on what
      redaction leaves of their content. */
  lemma IdCoversTheEnvelope(suite: Suite, e: Fields, f: Fields)
    requires CollisionFree(suite)
    ensures IdOf(suite, e) == IdOf(suite, f) <==>
              && (forall key | IsEnvelope(key) :: SameField(e, f, key))
              && RedactedContent(e) == RedactedContent(f)
    ensures IdOf(suite, e)[0] == '$'
  {
    IdsIdentifyRedactedEvents(suite, e, f);
    forall key
      ensures SameField(Referenced(e), Referenced(f), key) <==>
                if key == "content" then RedactedContent(e) == RedactedContent(f)
                else IsEnvelope(key) ==> SameField(e, f, key)
    {
      ReferencedFieldsAgree(e, f, key);
    }
    SameFieldsSameMap(Referenced(e), Referenced(f));
    assert !IsEnvelope("content") by {
      EnvelopeIsReferenced("content");
    }
  }

  ghost function RedactedContent(e: Fields): Json {
    RedactionKeepsThisContent(e, "");
    Redact(e)["content"]
  }

  lemma ReferencedFieldsAgree(e: Fields, f: Fields, key: string)
    ensures SameField(Referenced(e), Referenced(f), key) <==>
              if key == "content" then RedactedContent(e) == RedactedContent(f)
              else IsEnvelope(key) ==> SameField(e, f, key)
  {
    if key != "content" {
      RedactionKeepsTheseFields(e, key);
      RedactionKeepsTheseFields(f, key);
      EnvelopeIsReferenced(key);
    } else {
      assert "content"[0] != SIGNATURES[0] && "content"[0] != UNSIGNED[0];
    }
  }

  lemma EnvelopeIsReferenced(key: string)
    ensures IsEnvelope(key) <==>
              && key in {"event_id", "type", "room_id", "sender", "state_key", "hashes", "signatures",
                         "depth", "prev_events", "auth_events", "origin_server_ts"}
              && key !in {SIGNATURES, UNSIGNED}
  {
    assert SIGNATURES[2] == 'g' && UNSIGNED[0] == 'u';
    assert "event_id"[2] == 'e' && "type"[2] == 'p' && "room_id"[2] == 'o' && "sender"[2] == 'n'
        && "state_key"[2] == 'a' && "hashes"[2] == 's' && "depth"[2] == 'p' && "content"[2] == 'n'
        && "prev_events"[2] == 'e' && "auth_events"[2] == 't'
        && "origin_server_ts"[2] == 'i';
  }
}
