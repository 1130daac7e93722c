/** Redaction, visibility and edits: who may see what is settled by fields that redaction keeps,
    and an edit does not outlive its redaction. */
module RedactedHistory {
  import opened JsonValues
  import opened Events
  import opened Redaction
  import opened RedactedRooms
  import opened Visibility
  import opened Aggregation

  /** The server keeps the redacted event in place of the original and marks it so. */
  function RedactStored(e: StoredEvent): StoredEvent {
    e.(event := Redaction.Redacted(e.event),
       disposition := if e.disposition.DispositionAccepted? then Redacted else e.disposition)
  }

  function RedactEach(events: seq<StoredEvent>): seq<StoredEvent> {
    seq(|events|, i requires 0 <= i < |events| => RedactStored(events[i]))
  }

  lemma HistoryContentSurvives(content: Fields)
    ensures StringIn(RedactContent(TYPE_HISTORY_VISIBILITY, content), "history_visibility")
         == StringIn(content, "history_visibility")
  {
    assert TYPE_HISTORY_VISIBILITY[7] == 'h' && TYPE_CREATE[7] == 'c'
        && TYPE_MEMBER[7] == 'm' && TYPE_JOIN_RULES[7] == 'j';
    assert KeptContentKeys(TYPE_HISTORY_VISIBILITY)[0] == "history_visibility";
  }

  /** A filter over redacted events is a filter over the events as they were sent. */
  lemma RedactionLeavesTheFilter(f: HistoryFilter, caller: string,
                                 visibility: seq<StoredEvent>, memberships: seq<StoredEvent>)
    requires forall e | e in visibility :: e.event.Type() == TYPE_HISTORY_VISIBILITY
    requires forall e | e in memberships :: e.event.Type() == TYPE_MEMBER
    ensures IsFilterOf(f, caller, RedactEach(visibility), RedactEach(memberships))
       <==> IsFilterOf(f, caller, visibility, memberships)
  {
    forall i | 0 <= i < |visibility|
      ensures VisibilityChange(RedactStored(visibility[i])) == VisibilityChange(visibility[i])
    {
      EnvelopeSurvives(visibility[i].event);
      HistoryContentSurvives(visibility[i].event.Content());
    }
    forall i | 0 <= i < |memberships|
      ensures MembershipChange(RedactStored(memberships[i])) == MembershipChange(memberships[i])
    {
      EnvelopeSurvives(memberships[i].event);
      MemberContentSurvives(memberships[i].event.Content());
    }
    assert VisibilityChanges(RedactEach(visibility)) == VisibilityChanges(visibility);
    assert MembershipChanges(RedactEach(memberships)) == MembershipChanges(memberships);
  }

  /** A redacted event is shown exactly to those who were shown the original. */
  lemma RedactionHidesNothing(f: HistoryFilter, e: StoredEvent)
    ensures Visible(f, RedactStored(e)) <==> Visible(f, e)
  {
    EnvelopeSurvives(e.event);
    HistoryContentSurvives(e.event.Content());
    MemberContentSurvives(e.event.Content());
  }

  /** A redacted edit replaces nothing; only content that redaction never strips could. */
  lemma RedactedEditsReplaceNothing(parent: Event, child: Event)
    ensures ValidReplacement(parent, Redaction.Redacted(child)) <==>
              ValidReplacement(parent, child) && child.Type() == TYPE_CREATE
  {
    EnvelopeSurvives(child);
    StateStays(child);
    NewContentIsStripped(child.Type(), child.Content());
  }

  lemma StateStays(e: Event)
    ensures Redaction.Redacted(e).IsState() <==> e.IsState()
  {
    ListedFieldsStay(e.fields);
    assert TOP_LEVEL[4] == "state_key" && "state_key"[0] != "content"[0];
  }

  lemma NewContentIsStripped(eventType: string, content: Fields)
    ensures "m.new_content" in RedactContent(eventType, content) <==>
              eventType == TYPE_CREATE && "m.new_content" in content
  {
    var keys := KeptContentKeys(eventType);
    assert forall i | 0 <= i < |keys| :: keys[i][1] != '.';
    assert THIRD_PARTY_INVITE[0] == 't';
  }
}
