/** From selection through building to authorisation: an event built with the citations selected
    for it carries all its judges need. */
module BuiltEvents {
  import opened Wrappers
  import opened Events
  import opened RoomState
  import opened AuthRules
  import opened RoomRuns
  import opened AuthSelection
  import opened EventIdentity
  import opened Signing

  /** The builder, short of its citations, given those selected for it. */
  function Citing(b: EventBuilder, s: StateMap): EventBuilder {
    b.(authEvents := Ids(Selected(b, s)))
  }

  /** Selecting does not look at the citations. */
  lemma SelectionIgnoresCitations(b: EventBuilder, s: StateMap)
    ensures Selected(Citing(b, s), s) == Selected(b, s)
  {
  }

  /** An event that names one predecessor and cites what selection returns is judged on the
      events it cites exactly as on the whole state; they are at most six and pass the check. */
  lemma CitationsAreEnough(b: EventBuilder, full: EventBuilder, e: Event, s: StateMap, create: Event)
    requires Reachable(s, create, b.version) && full == Citing(b, s) && b.eventType != TYPE_CREATE
    requires Describes(full, e) && Carries(full, e) && |full.prevEvents| == 1
    ensures |e.AuthEvents()| <= 6
    ensures Authorise(e, Cited(s, e.AuthEvents()), b.version) == Authorise(e, s, b.version)
    ensures (forall k | k in s :: SameRoomOrUnknown(e, s[k])) ==> CitationsValid(e, Selected(b, s), b.version)
  {
    SelectionIgnoresCitations(b, s);
    AuthorisationIsLocal(full, e, s, create);
    SelectionIsShort(b, s);
    if forall k | k in s :: SameRoomOrUnknown(e, s[k]) {
      SelectionPassesTheCheck(full, e, s, create);
    }
  }

  lemma SelectionIsShort(b: EventBuilder, s: StateMap)
    ensures |Selected(b, s)| <= 6
  {
    CitingIsExact([], s, AuthKeys(b));
  }

  /** In any reachable state, an event built on one predecessor with the citations selected for
      it verifies, cites at most six events that pass the check, and is judged on the events it
      cites exactly as on the whole state. */
  method BuildForRoom(suite: Suite, b: EventBuilder, s: StateMap, ghost create: Event,
                      server: string, keyId: string, key: string)
    returns (result: Result<Event, BuildError>)
    requires Sound(suite) && Reachable(s, create, b.version)
    requires b.eventType != TYPE_CREATE
    ensures result.Ok? ==>
              && ContentHashHolds(suite, result.value)
              && SignatureHolds(suite, result.value, server, keyId, suite.publicKey(key))
              && |result.value.PrevEvents()| == 1 && |result.value.AuthEvents()| <= 6
              && Authorise(result.value, Cited(s, result.value.AuthEvents()), b.version)
                 == Authorise(result.value, s, b.version)
              && ((forall k | k in s :: SameRoomOrUnknown(result.value, s[k])) ==>
                    CitationsValid(result.value, Selected(b, s), b.version))
  {
    var ids := SelectAuthEvents(b, s);
    var full := b.(authEvents := ids);
    result := BuildVerified(suite, full, server, keyId, key);
    if result.Ok? {
      CitationsAreEnough(b, full, result.value, s, create);
    }
  }

  /** Building, seen from outside: what came in is what the event says, and it verifies. */
  method BuildVerified(suite: Suite, b: EventBuilder, server: string, keyId: string, key: string)
    returns (result: Result<Event, BuildError>)
    requires Sound(suite) && b.eventType != TYPE_CREATE
    ensures result.Ok? ==>
              && Describes(b, result.value) && Carries(b, result.value) && |b.prevEvents| == 1
              && ContentHashHolds(suite, result.value)
              && SignatureHolds(suite, result.value, server, keyId, suite.publicKey(key))
  {
    result := Build(suite, b, server, keyId, key);
  }
}
