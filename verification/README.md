# Proofs about the Matrix room rules

A Dafny model of the parts of the homeserver where a mistake would be hardest to notice:
the authorisation rules of room versions 11 and 12, the identity of events, history visibility,
and four small engines (the per-key serialiser, the wake-up registry, the glob matcher and the
lockout window). `dafny verify dfyconfig.toml` checks everything.

## How it fits together

**Rooms as runs.** `Events`, `RoomState`, `PowerLevels` and `AuthRules` follow the Go code branch by
branch. `RoomRuns` turns them into a transition system: an accepted create event with state key
"", then events that each name one predecessor and are authorised by the state they meet, stored
by `Apply`. `RoomRuns.RoomInvariant` is kept by every step. `RoomSteps` restates the rules as
conditions on the state without an order of checks and proves the two equivalent. `RoomSafety`
and `PowerCeiling` prove theorems about whole runs; `AuthSelection` proves that the events an event
cites are all its judges need; `RedactedRooms`, `RedactedRuns` and `RedactedHistory` prove what
redaction leaves of all this. `RoomsWithLevels` builds reachable rooms with any levels, in which the
exceptions found are shown to happen.

**Identity of events.** `CanonicalJson` is the canonical writer, `JsonReader` an independent reader
written from RFC 8259, and `CanonicalForm` proves that reading undoes writing. `Redaction`, `Signing`
and `EventIdentity` build, hash, sign, redact and verify over an uninterpreted `Suite` of
primitives. `BuiltEvents` joins this pipeline to the room rules.

**State machines over shared memory.** `Serialiser` and `Notifier` are classes whose methods are
proved to change their tables by the functions that `SerialiserProtocol` and `NotifierRuns`
interleave in every order.

**Stand-alone algorithms.** `Snapshot`, `Glob`, `Visibility`, `Aggregation` with `Shortlists`, and
`Lockout`.

## What the proofs found

- Locality of authorisation depends on the room invariant: the bootstrap join asks whether the
  state holds one event only, and the cited part of a larger state must not look like that. It
  does not, because any larger state holds the creator's own member entry, which is cited
  (`AuthSelection.BootstrapIsLocal`).
- In that bootstrap case the sender is not looked at, so a room's first join of its creator is
  accepted whoever sends it (`RoomSteps.JoinRulesAreConditions`, first alternative).
- A join rule other than the five known ones admits nobody, the invited included
  (`RoomSteps.DoorOpen`).
- The power ceiling does not bound user by user or event type by event type: dropping an entry that
  held a user or an event type down can leave it above the sender, or above the ceiling
  (`PowerCeiling.WhoEndsUpAboveTheSender` and `PowerCeiling.WhichEventTypesEndUpAbove` say exactly
  when, `PowerCeiling.DroppingAnEntryCanRaise` gives a room where both happen).
- Redaction removes the `notifications` table of a power levels event although the rules compare it.
  Redacting the stored levels therefore can change the verdict on a later power levels event, in
  either direction (`RedactedRooms.RedactionCanOpenAndClose`); `RedactedRooms.RedactingTheLevels` says
  exactly when, and `RedactedRooms.RedactingTheState` that no other verdict changes.
- The shortlist of ten edits is filled before edits are checked, so ten invalid edits by the author
  hide a valid older one (`Shortlists.InvalidEditsCanHideTheValidOne`). It is found exactly when fewer
  than ten are newer (`Shortlists.TwoStagesAgreeExactly`).
- For an attempt that failures led to, `2 * MaxFailures - 2` further failures within a window's length
  certainly lock, one fewer than for an arbitrary record, and no smaller number does
  (`Lockout.TwiceTheLimitLocks`, `Lockout.TheBoundIsTight`). Failures at Go's zero time never open a
  window and never lock (`Lockout.ZeroTimeNeverLocks`).

## Modelling choices

- A Go string is a sequence of Unicode scalar values. `ByteOrder.LessIsByteOrder` proves that comparing
  them is comparing UTF-8 bytes, and `Utf8.ScalarsAreEncodedByTheTable` that those are the bytes of
  section 3 of RFC 3629; where Go counts bytes, `Utf8.Size` does.
- The functions that follow the code use its names for event types, memberships and content keys. The
  conditions they are held against (`RoomSteps`, and the lemmas called "in words") spell these out, so
  that a wrong name, list, limit or comparison in the one is not repeated in the other.
- Decoded JSON is a tree with whole numbers (`JsonValues.Json`); a Go `nil` map reads as empty.
- A Go sort is any permutation in order (`Sorting.IsSortOf`): `slices.SortFunc` is not stable, so
  results hold for every order of equal elements. Walks over Go maps visit keys in an arbitrary order.
- The version switches of `RoomVersions.RoomVersion` are arbitrary in most theorems; those about
  version 11 or 12 ask only for the switch they depend on.
- One redaction algorithm serves both versions, so the version parameter of Redact is dropped.
- Hypotheses about the outside: `Signing.Sound` (verify accepts what sign made under the matching
  key; base64 decodes what it encoded), `Signing.CollisionFree` (distinct texts hash apart),
  `Events.IdsTellEventsApart`, `Snapshot.AllAddressable` (string lengths fit Go's int) and
  `Lockout.IsClock` (times do not go back and are not Go's zero time). `Signing.SuitesExist` shows that
  the first two can be met together.
- Who may redact what (`mayRedact` of the events service) is not modelled: theorems about redaction
  hold whoever redacts.

## Model

| member | source | states |
|---|---|---|
| RoomRuns.FirstEventAdmitsTheCreator | internal/entity/authrules.go:229-241 | the first state event accepted after the create event is the creator's own join |
| RoomRuns.AcceptedLevelsParse | internal/entity/authrules.go:320-324 | after any accepted event the stored power levels parse; they are the event's own when it replaced them and the earlier ones otherwise |
| RoomRuns.StepKeepsInvariant | internal/entity/authrules.go:68-116 | every accepted event keeps the room invariant |
| RoomRuns.ReachableStatesAreSound | internal/entity/state.go:57-118 | in every reachable state the create event is the original one, every event is under its own key, the creator has a member entry once anything else is stored, and PowerLevels does not fail |
| RoomRuns.RunStep | internal/entity/state.go:57-65 | at every position of an authorised run the state is sound, accepts the next event and leads to the next state |
| RoomSteps.CreationIsPermission | internal/entity/authrules.go:118-149 | a create event is accepted exactly when it has no predecessors, carries a room id as its version says, declares that version, and lists user ids as additional creators; then all creators but the sender are user ids |
| RoomSteps.CreationInVersion11 | internal/entity/authrules.go:118-133 | in version 11 a create event is accepted exactly without predecessors, with a room id, and declaring "11" or nothing |
| RoomSteps.CreationInVersion12 | internal/entity/authrules.go:118-149 | in version 12 a create event is accepted exactly without predecessors, without a room id, declaring "12", and listing user ids where it lists additional creators |
| RoomSteps.VersionsDiffer | internal/entity/roomversion.go:64-87 | only version 12 ties events to the create event's id, outranks numbers by creators and admits further creators |
| RoomSteps.JoinRulesAreConditions | internal/entity/authrules.go:229-272 | a join is accepted exactly for the bootstrap join of the creator, or for a sender who is the target, not banned, and let in by the join rule, an invitation or a voucher |
| RoomSteps.MemberRulesAreConditions | internal/entity/authrules.go:180-318 | a membership event is accepted exactly when one of seven order-free ways of moving the target applies |
| RoomSteps.OtherRulesAreConditions | internal/entity/authrules.go:92-115 | any other event is accepted exactly when a joined sender has the level, the state key is not another user's, and new power levels are within reach |
| RoomSteps.AuthorisationIsPermission | internal/entity/authrules.go:68-116 | in a sound state the sequence of checks accepts an event with one predecessor exactly when the order-free conditions hold |
| RoomSteps.ChangesAreJudgedLevelByLevel | internal/entity/authrules.go:320-404 | a change of levels is allowed exactly when each of the seven thresholds, by name, and each entry of the three tables is unchanged or within reach on both sides |
| RoomSteps.RefusalsHaveTheirCause | internal/entity/authrules.go:68-116 | which refusals are for an unreadable sender and which for unreadable levels, exactly; all others are for want of permission |
| RoomSteps.StepMovesMembers | internal/entity/authrules.go:180-227 | a membership changes only through an accepted event of the user's own entry, and only as its sender may move that user |
| RoomSteps.OnlyTheJoinedSend | internal/entity/authrules.go:92-94 | everything but membership events comes from joined senders who may send it |
| RoomSteps.StepChangesLevels | internal/entity/authrules.go:320-359 | the levels in force change only through an accepted power levels event, from a joined sender with the level for it, within the sender's reach, naming ordinary users only |
| RoomsWithLevels.LevelsAreReachable | internal/entity/authrules.go:68-116 | in both versions any levels that name ordinary users and let the creator invite are those of a reachable room with a second member: created, joined, given its levels, an invitation and a join |
| RoomsWithLevels.LevelsStep | internal/entity/authrules.go:320-359 | in such a room a joined user's power levels event is accepted exactly when they reach its level and, once there are levels, the change is within reach; then the levels are the proposed ones |
| AuthRules.CheckScalars | internal/entity/authrules.go:328-347 | the walk over the scalar thresholds accepts exactly when each changed one is within the sender's reach before and after |
| AuthRules.CheckLevelTable | internal/entity/authrules.go:361-380 | the two walks over a table accept exactly when every entry changed, added or removed is within the sender's reach on each side it exists on |
| AuthRules.CheckUserTable | internal/entity/authrules.go:382-404 | the two walks over the users table accept exactly when other users' changed entries are below the sender and no new entry is above the sender |
| AuthRules.CheckPowerLevels | internal/entity/authrules.go:320-359 | parsing and then walking scalars and tables reaches the verdict of the rule, cause included |
| PowerLevels.RanksFormAnOrder | internal/entity/powerlevels.go:37-55 | outranking is not being reached, and the two relations compose as in a total order with creators on top |
| PowerLevels.ParseScalars | internal/entity/powerlevels.go:93-113 | all seven scalars are read or defaulted, or one present is not a number |
| PowerLevels.ParseTable | internal/entity/powerlevels.go:115-138 | a table is read whole, empty when absent, refused when anything in it is not a number |
| PowerLevels.ParsePowerLevels | internal/entity/powerlevels.go:90-148 | parsing succeeds exactly on readable content naming ordinary users only, and each error means what it says whatever order maps are walked in |
| PowerLevels.ReadableLevelsNameOrdinaryUsers | internal/entity/powerlevels.go:139-146 | readable levels are accepted exactly when every name in the users table is a user id and, where creators outrank them, no creator |
| PowerLevels.LevelsReadBack | internal/entity/powerlevels.go:73-148 | levels written out, with any set of keys left unsaid, parse back to themselves with the defaults in those places, and to nothing exactly when they name a creator or no user id |
| Events.DomainFollowsTheColon | internal/entity/event.go:255-261 | a sender's domain is what follows the first colon of an id that starts with an at sign |
| Events.UserIdsInWords | internal/entity/user.go:96-115 | a user id is an at sign, a local part without colon or null, a colon and a server name, in 255 bytes |
| RoomState.WithoutRepeats | internal/entity/state.go:98-104 | the creators hold each listed string once, besides those they started with |
| RoomState.ListCreators | internal/entity/state.go:89-105 | the loop over additional_creators yields the room's creators in order |
| RoomState.LevelsBeforeAnySet | internal/entity/state.go:107-118 | before the first power levels event every threshold is that of empty content; version 11's creator has 100, version 12's creators their rank, everybody else 0 |
| AuthSelection.SelectAuthEvents | internal/entity/authrules.go:18-59 | the ids grown step by step are those of the wanted entries present in the state, in order, none twice |
| AuthSelection.CitingIsExact | internal/entity/authrules.go:23-28 | a citation list holds only wanted entries, all those present, no id twice, and no more events than keys |
| AuthSelection.SelectionIsExact | internal/entity/authrules.go:18-59 | the event under a key is selected exactly when one of seven conditions on the builder, spelled out, holds of the key |
| AuthSelection.SelectionIsInOrder | internal/entity/authrules.go:31-54 | the selected events come in the order create, power levels, sender, target, join rules, third party invite, voucher |
| AuthSelection.OnlyVersion11CitesCreate | internal/entity/authrules.go:30-32 | the create event is cited in version 11 and not in version 12 |
| AuthSelection.BootstrapIsLocal | internal/entity/authrules.go:229-234 | when the creator joins, the cited state holds the create event alone exactly when the whole state does |
| AuthSelection.AuthorisationIsLocal | internal/entity/authrules.go:18-116 | in every reachable state the verdict, cause included, is the same on the create event and the cited entries as on all of the state |
| AuthSelection.CheckAuthEvents | internal/entity/authrules.go:406-434 | the loop over declared events accepts exactly state events under distinct keys, of the same room, with the create event present or absent as the version asks |
| AuthSelection.CitationsInWords | internal/entity/authrules.go:406-434 | per version, what a valid list of citations is |
| AuthSelection.SelectionPassesTheCheck | internal/entity/authrules.go:18-59 | what selection returns in a reachable state is at most six events and always passes CheckAuthEvents |
| RoomSafety.BanStep | internal/entity/authrules.go:193-227 | a banned user gets nothing accepted, and stays banned unless another joined user with the ban and kick levels who outranks them sends a leave |
| RoomSafety.BansPersist | internal/entity/authrules.go:229-318 | in every run, between a ban and a later join, invite or knock of the same user the ban was lifted that way |
| RoomSafety.MembersWereInvited | internal/entity/authrules.go:244-248 | while the join rule stays invite or knock, everyone joined but the creator was invited earlier by a joined user with the power to, or with a third party token |
| RoomSafety.SovereigntyStep | internal/entity/authrules.go:297-404 | no accepted event of somebody else removes a joined user whose entry nobody exceeds, changes that entry or raises anyone above it |
| RoomSafety.SovereigntyHolds | internal/entity/authrules.go:180-404 | in version 11 that holds for every run in which the top user sends nothing |
| RoomSafety.LevelsNameNoCreator | internal/entity/powerlevels.go:139-147 | where creators outrank power levels, every accepted power levels event parses and names no creator |
| RoomSafety.CreatorStep | internal/entity/authrules.go:297-318 | an accepted event takes a joined creator out exactly when it is the creator's own leave |
| RoomSafety.CreatorsAreImmovable | internal/entity/authrules.go:180-318 | a joined creator, additional ones included, stays joined throughout a run exactly when the run holds no leave of their own |
| RoomSafety.CreatorsKeepTheirRank | internal/entity/powerlevels.go:150-158 | every creator keeps the rank above all numbers at every position of every run |
| PowerCeiling.Ceiling | internal/entity/powerlevels.go:150-158 | the greatest of users_default and the users entries: it bounds all of them and is one of them |
| PowerCeiling.ChangeStaysBelow | internal/entity/authrules.go:320-404 | an allowed change by a sender without a creator's rank keeps every user level under a bound and freezes all thresholds above it |
| PowerCeiling.CeilingNeverRises | internal/entity/authrules.go:320-404 | over every run of such senders the ceiling never rises, thresholds above it stay as they are, and none is raised above it |
| PowerCeiling.WhoEndsUpAboveTheSender | internal/entity/authrules.go:382-404 | an ordinary user is above the sender after an allowed change exactly when they were before at that level, or lost an entry under a users_default above the sender |
| PowerCeiling.WhichEventTypesEndUpAbove | internal/entity/authrules.go:361-380 | against any bound on the sender, the ceiling included, an event type is above it after an allowed change exactly when it was before at that level, or lost an entry within it under a default above it |
| PowerCeiling.DroppingAnEntryCanRaise | internal/entity/authrules.go:361-404 | in a reachable room of either version an accepted change puts a user above its sender and an event type above the ceiling |
| CanonicalJson.WriteQuoted | internal/entity/canonicaljson.go:134-166 | appends the quoted string with the shortest escape of each character |
| CanonicalJson.WriteNumber | internal/entity/canonicaljson.go:111-119 | appends the decimal digits of a safe integer and reports any other |
| CanonicalJson.WriteObject | internal/entity/canonicaljson.go:87-109 | appends the members in the order of their keys, or fails exactly when a value in them is not writable |
| CanonicalJson.Write | internal/entity/canonicaljson.go:52-85 | appends the canonical text of the value to what the buffer held, or fails exactly when a number in it is out of range |
| CanonicalForm.BodyReads | internal/entity/canonicaljson.go:139-165 | an RFC 8259 reader takes an escaped string back to the string, whatever follows it |
| CanonicalForm.NumberReads | internal/entity/canonicaljson.go:111-119 | it takes a written integer back to the integer |
| CanonicalForm.NumbersAreShortest | internal/entity/canonicaljson.go:111-119 | zero has no sign, no other number a leading zero, and a negative number is its opposite behind a sign |
| CanonicalForm.EscapesAreShortest | internal/entity/canonicaljson.go:140-163 | no text the reader takes for a character is shorter than the one written, and numeric escapes use small letters |
| ByteOrder.LessIsByteOrder | internal/entity/canonicaljson.go:92 | one string sorts before another exactly when its UTF-8 bytes precede the other's, as a proper prefix or by the first byte that differs |
| CanonicalForm.KeysAreWrittenInByteOrder | internal/entity/canonicaljson.go:87-109 | the writer lists each key once, in increasing order of its bytes |
| CanonicalForm.WritableInWords | internal/entity/canonicaljson.go:52-132 | exactly the values whose numbers lie within 2^53 - 1 of zero can be written |
| CanonicalForm.TwoMembersInOrder | internal/entity/canonicaljson.go:94-107 | the text of an object of two members, the one with the key of lesser bytes first |
| CanonicalForm.ReadingBackTheCanonicalText | internal/entity/canonicaljson.go:52-166 | it takes the canonical text of any value back to that value |
| CanonicalForm.CanonicalTextIsInjective | internal/entity/canonicaljson.go:52-166 | only equal values share a canonical text |
| CanonicalForm.CanonicalFormIsCanonical | internal/entity/canonicaljson.go:34-50 | two texts have one canonical form exactly when they denote one value, and canonicalising twice is canonicalising once |
| CanonicalForm.MemberOrderDoesNotMatter | internal/entity/canonicaljson.go:87-109 | an object written in any member order canonicalises to the same text |
| Redaction.ComputeRedacted | internal/entity/redaction.go:101-115 | the loops over the key lists yield the redaction of the fields |
| Redaction.RedactionKeepsTheseFields | internal/entity/redaction.go:64-113 | besides the content a redacted event has exactly those of eleven named fields that it had, unchanged |
| Redaction.RedactionKeepsThisContent | internal/entity/redaction.go:78-145 | which content keys stay, exactly, by type of event: all of a create event's, the named ones of five types, and the signed part of a third party invite |
| Redaction.RedactionIsIdempotent | internal/entity/redaction.go:101-145 | redacting twice is redacting once, for all field maps |
| Signing.SignJson | internal/entity/signing.go:60-97 | signing succeeds exactly on a writable payload, and adds one signature over it, leaving everything else, unsigned included, as it was |
| Signing.VerifyJson | internal/entity/signing.go:99-127 | verification reports the first fault of signature, encoding, payload and primitive |
| Signing.FaultsInWords | internal/entity/signing.go:99-127 | when each of the four faults and the success is reported, by the signature filed under the server and key id |
| Signing.SigningThenVerifying | internal/entity/signing.go:60-127 | a signed object verifies under the matching key, and any other server's or key's verification is what it was before |
| Signing.SignaturesCoverTheRest | internal/entity/signing.go:72-79 | two objects have the same signed text exactly when they agree on all fields but signatures and unsigned |
| Signing.SignaturesGoUnderTheirKey | internal/entity/signing.go:80-90 | the signature is put under the server and key id in signatures; the other fields and other servers' signatures stay |
| EventIdentity.ComputeContentHash | internal/entity/event.go:193-204 | the hash covers the fields without unsigned, signatures and hashes |
| EventIdentity.ComputeId | internal/entity/event.go:206-224 | the id is derived from the redacted fields without signatures and unsigned |
| EventIdentity.HashesInWords | internal/entity/event.go:193-240 | which text each hash is of, in which alphabet and under which sigil it is spelled, and where an event must hold its content hash |
| EventIdentity.VerifyContentHash | internal/entity/event.go:226-240 | accepts exactly when a claimed hash is present and is the computed one |
| EventIdentity.VerifySignature | internal/entity/event.go:242-251 | accepts exactly when the redacted event with its signatures put back verifies |
| EventIdentity.ListIds | internal/entity/event.go:147-156 | keeps the strings of the array in order and skips the rest |
| EventIdentity.CheckLimits | internal/entity/event.go:158-191 | accepts exactly within the byte limits, the list limits and the version's rule on the create event's room id |
| EventIdentity.LimitsInWords | internal/entity/event.go:158-191 | the limits in numbers: 65536 bytes, 255 for five fields, 20 predecessors, 10 citations |
| EventIdentity.NewEvent | internal/entity/event.go:70-94 | parsing succeeds exactly on writable fields within the limits, and the id is that of the fields |
| EventIdentity.Build | internal/entity/builder.go:38-76 | building succeeds exactly on a complete builder with writable fields within the limits; the event says what the builder said, one deeper than its predecessor up to the greatest depth, and its content hash and signature verify |
| EventIdentity.CompletenessInWords | internal/entity/builder.go:95-112 | which builders are complete, and what each refusal means |
| EventIdentity.BuiltFieldsInWords | internal/entity/builder.go:43-73 | the fields of a built event, exactly, with its hash and signatures in place |
| EventIdentity.SignedTextIsRederived | internal/entity/builder.go:78-93 | the payload signed before the signatures were attached is the one re-derived by redacting and stripping the stored event |
| EventIdentity.IdSurvivesRedaction | internal/entity/event.go:206-224 | a redacted event has the id of the original |
| EventIdentity.SignatureSurvivesRedaction | internal/entity/event.go:242-251 | a signature holds on an event exactly when it holds on the redacted event |
| EventIdentity.ContentHashExposesRedaction | internal/entity/event.go:193-240 | an event whose content hash holds keeps it through redaction exactly when redaction removed nothing hashed |
| EventIdentity.IdsIdentifyRedactedEvents | internal/entity/event.go:206-224 | two events share an id exactly when they redact to the same thing, signatures aside |
| EventIdentity.ContentHashCoversTheRest | internal/entity/event.go:193-204 | content hashes agree exactly when all fields but unsigned, signatures and hashes do |
| EventIdentity.IdCoversTheEnvelope | internal/entity/event.go:206-224 | ids agree exactly when ten named fields, depth, predecessors, citations, time and hashes among them, and the redacted content do |
| BuiltEvents.CitationsAreEnough | internal/entity/authrules.go:18-59 | an event citing what selection returns cites at most six events that pass the check and is judged on them as on the whole state |
| BuiltEvents.BuildForRoom | internal/entity/builder.go:38-76 | selecting and then building in a reachable state gives an event that verifies and that its citations judge as the whole state does |
| RedactedRooms.RedactingTheEvent | internal/entity/redaction.go:64-145 | the verdict on any event but a power levels event is the same on the redacted event |
| RedactedRooms.LevelsSurvive | internal/entity/redaction.go:83-87 | redacting any entries of a state leaves its levels in force but, when the levels are among them, for the notifications table, and its creators |
| RedactedRooms.RedactingTheState | internal/entity/redaction.go:64-145 | redacting any entries of a sound state changes the verdict on no event but a power levels event |
| RedactedRooms.RedactingTheLevels | internal/entity/authrules.go:349-358 | on every power levels event the verdicts differ exactly when the stored levels are among the entries redacted, the event is in order otherwise, and the dropped notifications table decides |
| RedactedRooms.RedactionCanOpenAndClose | internal/entity/authrules.go:361-380 | in a reachable room of either version redacting the levels turns one power levels event from refused to accepted and another from accepted to refused |
| RedactedRuns.SovereigntyOutlastsRedactions | internal/service/events/events_impl.go:574-583 | version 11's top user, silent, stays joined and on top in every run of accepted events and redactions of stored entries in any order |
| RedactedRuns.CreatorsOutlastRedactions | internal/service/events/events_impl.go:574-583 | in such runs a joined creator of version 12 stays joined until their own leave, and keeps the rank above all numbers |
| RedactedRuns.BansOutlastRedactions | internal/service/events/events_impl.go:574-583 | in such runs a banned user stays banned and sends nothing accepted until the ban is lifted, whatever is redacted |
| RedactedHistory.RedactionLeavesTheFilter | internal/entity/visibility.go:21-39 | the filter built from redacted visibility and membership events is one built from the originals |
| RedactedHistory.RedactionHidesNothing | internal/entity/visibility.go:109-133 | a redacted event, marked as one, is visible exactly when the original is |
| RedactedHistory.RedactedEditsReplaceNothing | internal/entity/relation.go:63-79 | a redacted edit is never a valid replacement, create content, which is never stripped, apart |
| Snapshot.ListKeys | internal/entity/state.go:120-141 | the sorted keys are the one list of the state's keys in increasing order |
| Snapshot.KeysAreHashedInByteOrder | internal/entity/state.go:120-141 | each key is hashed once, by the bytes of the types and then of the state keys |
| Snapshot.LengthBytesSpellTheLength | internal/entity/state.go:145-149 | the eight length bytes spell the length, most significant first |
| Snapshot.WriteSnapshot | internal/entity/state.go:143-156 | the bytes written to the hasher are each string behind its eight-byte length, key by key |
| Snapshot.StreamIsInjective | internal/entity/state.go:120-156 | two states feed the hash the same bytes exactly when they map the same keys to the same event ids |
| Text.SplitOfJoin | internal/pkg/notify/notify.go:57-66 | splitting a joined list gives it back exactly when it is not empty and no entry holds the separator |
| Glob.MatchesByParts | internal/entity/eventfilter.go:112-121 | a pattern matches exactly when its first part is a prefix and the rest can be woven from the other parts |
| Glob.LeftmostIsEnough | internal/entity/eventfilter.go:123-129 | taking the leftmost occurrence of the next part loses no match |
| Glob.PatternsInWords | internal/entity/eventfilter.go:112-131 | a pattern without an asterisk matches itself; one with it matches what begins with what precedes the asterisk and has a rest matching what follows |
| Glob.GlobMatches | internal/entity/eventfilter.go:112-131 | the greedy scan accepts exactly when some choice of a substring for each star makes the pattern equal the value |
| Glob.MatchesAny | internal/entity/eventfilter.go:103-110 | accepts exactly when one of the patterns matches |
| Visibility.NewHistoryFilter | internal/entity/visibility.go:21-39 | the filter holds every change it was given, sorted by position |
| Visibility.ScanChanges | internal/entity/visibility.go:56-76 | the loop with its break ends on the value of the last change before the first that is not past |
| Visibility.ScanFindsTheLatest | internal/entity/visibility.go:56-76 | over changes given in any order at distinct positions the scan finds the one value left by the latest past change |
| Visibility.HasJoinedAtOrAfter | internal/entity/visibility.go:78-85 | finds whether some join is not before the position |
| Visibility.LookupsAreTheLatest | internal/entity/visibility.go:56-76 | visibilityBefore, membershipBefore and MembershipAt are what the event at the greatest (topological, stream) pair below, or for the last not above, the position set, or shared, none and leave |
| Visibility.VisibilityRefinesHistory | internal/entity/visibility.go:87-133 | VisibleAt and Visible show exactly what the last events below in the unsorted history entitle the caller to, positions compared as pairs |
| Visibility.MembersOnlyHistory | internal/entity/visibility.go:87-133 | under joined visibility an ordinary event is visible exactly when the caller's last membership event below it is a join |
| Visibility.EntitlementInWords | internal/entity/visibility.go:135-145 | EverEntitled holds exactly with some membership event of the caller or some change of visibility to world_readable |
| Visibility.JoiningHidesNothing | internal/entity/visibility.go:78-133 | a join inserted at any fresh position hides nothing that was visible |
| Visibility.SeeingMeansEntitled | internal/entity/visibility.go:109-145 | whoever sees some event of the room passes EverEntitled |
| Aggregation.RecencyIsAnOrder | internal/entity/relation.go:81-86 | recency never holds both ways, is transitive, and tells distinct ids apart |
| Aggregation.RecencyInWords | internal/entity/relation.go:81-86 | the more recent event has the greater timestamp or, at equal times, the id of greater bytes |
| Aggregation.RelationsInWords | internal/entity/relation.go:35-54 | when content relates its event to another, and what the relation is |
| Aggregation.ReplacementsInWords | internal/entity/relation.go:63-79 | when an event may replace another, by their raw fields |
| Aggregation.ChooseReplacement | internal/entity/aggregation.go:58-70 | finds a valid replacement that no other is more recent than, and none exactly when none is valid |
| Aggregation.PlanBundle | internal/entity/aggregation.go:97-141 | shortlists the most recent same-sender edits unless the parent is redacted, sums up the thread, and keeps the first fifty references by position |
| Aggregation.LatestIsLast | internal/entity/aggregation.go:121-134 | no reference in the thread is at a greater (topological, stream) pair than its latest |
| Aggregation.ReferencesAreTheEarliest | internal/entity/aggregation.go:136-139 | the references shown are at most fifty, ordered by position, and none left out comes before one of them |
| Aggregation.ShortlistIsFromEdits | internal/entity/aggregation.go:114-119 | no edit off the shortlist is more recent than one on it, and short lists are kept whole |
| Aggregation.TwoStagesRefineTheDirectChoice | internal/entity/aggregation.go:58-119 | what is chosen from the shortlist is the most recent valid replacement of all, and with at most ten same-sender edits one is found exactly when there is one |
| Shortlists.NewerComeFirst | internal/entity/aggregation.go:114-119 | sorted by recency, an edit with k newer ones is at place k |
| Shortlists.ShortlistReachesTheBest | internal/entity/aggregation.go:114-119 | the shortlist holds a valid edit, and the best of them, exactly when fewer than ten edits are newer than the most recent valid one |
| Shortlists.TwoStagesAgreeExactly | internal/entity/aggregation.go:58-119 | the shortlist and the direct choice agree on whether there is an edit to show exactly when fewer than ten same-sender edits are newer than the most recent valid one; what the shortlist shows is then the direct choice |
| Aggregation.MostRecentIsUnique | internal/entity/aggregation.go:58-70 | there is one most recent valid replacement |
| Shortlists.EditsAreIndexed | internal/service/events/events_impl.go:610-624 | the edits of the next row parse as replacements of the message, so that the index holds a reference to each |
| Shortlists.InvalidEditsCanHideTheValidOne | internal/entity/aggregation.go:114-119 | for every number of newer invalid edits, the valid older edit is on the shortlist exactly when they are fewer than ten |
| Lockout.Fail | internal/entity/ratelimit.go:73-85 | the steps on the copy restart an expired window, count the failure and lock at the limit |
| Lockout.EnoughFailuresLock | internal/entity/ratelimit.go:73-85 | how many failures within a window's length lock, by what any attempt, reached or not, has recorded: never more than 2 * MaxFailures - 1 |
| Lockout.OpenWindowsHoldAFailure | internal/entity/ratelimit.go:73-85 | after any failures of a fresh subject an open window has a failure counted in it |
| Lockout.TwiceTheLimitLocks | internal/entity/ratelimit.go:73-85 | whatever failures came before, any further 2 * MaxFailures - 2 (at least one) within a window's length include one that locks until its own time plus LockFor |
| Lockout.TheBoundIsTight | internal/entity/ratelimit.go:73-85 | after any number of recorded failures below the limit, one, the worst case, included, 2 * MaxFailures - 2 less those recorded can pass within a nanosecond unlocked |
| Lockout.ZeroTimeNeverLocks | internal/entity/ratelimit.go:75-78 | no number of failures at Go's zero time locks |
| Lockout.LocksNeverMoveBack | internal/entity/ratelimit.go:80-83 | under one policy the time a subject is locked until never moves backwards |
| Serialiser.Serialiser.Acquire | internal/pkg/serialiser/serialiser.go:36-47 | returns the key's gate, a fresh one if it had none, and counts one more reference to it |
| Serialiser.Serialiser.Forget | internal/pkg/serialiser/serialiser.go:49-61 | gives one reference back and removes the gate with the last |
| SerialiserProtocol.StepIsSound | internal/pkg/serialiser/serialiser.go:22-61 | every interleaved step keeps the reference counts, the gates apart and each slot held by one running call |
| SerialiserProtocol.CallsAreSerialised | internal/pkg/serialiser/serialiser.go:22-61 | in every interleaving with cancellation bodies of one key never overlap, a gate is in the table exactly while calls hold it and counts them, releases never block, forgets never miss, and nothing is left once all have returned |
| SerialiserProtocol.WhatCallsMayDo | internal/pkg/serialiser/serialiser.go:22-34 | after any interleaving a waiting call may go in exactly when no call of its key is running, and may give up at any time; running calls may release and leaving ones forget |
| SerialiserProtocol.CallsCanAllReturn | internal/pkg/serialiser/serialiser.go:22-34 | from every sound state the calls in hand can all return with nobody cancelled |
| Notifier.Notifier.Wait | internal/pkg/notify/notify.go:76-86 | puts a fresh waiter with an empty slot in the group of each of its keys |
| Notifier.Notifier.Cancel | internal/pkg/notify/notify.go:88-97 | takes the waiter out of its groups and drops those left empty, at any time and any number of times |
| Notifier.Notifier.Deliver | internal/pkg/notify/notify.go:63-74 | fills the slot of exactly the waiters the message names and leaves the others alone |
| Notifier.Notifier.Notify | internal/pkg/notify/notify.go:53-57 | delivers the joined keys, and nothing for no keys |
| Notifier.Notifier.Waiters | internal/pkg/notify/notify.go:106-116 | counts each waiter once however many groups it is in |
| NotifierRuns.IndexHoldsThroughout | internal/pkg/notify/notify.go:63-98 | after any run each group is exactly the live waiters whose keys include its key, and none is empty |
| NotifierRuns.RunsGoOn | internal/pkg/notify/notify.go:63-98 | which steps a run can take next: any delivery, any new waiter, cancelling any waiter any number of times, and receiving a pending token |
| NotifierRuns.WatchedKeysAreWaitedFor | internal/pkg/notify/notify.go:100-104 | after any run the keys counted by Watching are those some live waiter has, and there are none exactly when nobody live waits for any |
| NotifierRuns.TokensMarkMissedDeliveries | internal/pkg/notify/notify.go:63-98 | a live waiter's token is pending exactly when a delivery named one of its keys since it last received |
| NotifierRuns.NotifyWakesItsWaiters | internal/pkg/notify/notify.go:53-74 | notifying keys free of the separator wakes exactly the live waiters for one of them |

## Left out

- AuthRules.CheckPowerLevels: reports the two parse errors as one cause, `LevelsInvalid`, because which of two faults in a users table is found first depends on the order in which Go walks the map.
- PowerLevels.ParsePowerLevels: does not say which fault is reported when there are several, for the same reason; levels are unbounded whole numbers, where Go refuses what does not fit 64 bits, which no canonical event can hold.
- CanonicalJson.WriteNumber: models the integer path only; the float fallback (internal/entity/canonicaljson.go:120-130) needs Go's parsing of decimal fractions.
- CanonicalJson.Write: strings are valid Unicode and values one of six kinds by their types, so the errors for invalid UTF-8 and unknown Go types do not arise.
- EventIdentity.Build: takes the signer of KeySigner, not any function; json.Marshal followed by json.Unmarshal, HTML escapes included, is the identity on JSON trees.
- EventIdentity.NewEvent: takes decoded fields; Go's own JSON decoder is not part of this model.
- Lockout.Fail: times are unbounded, so the wrap-around of time.Time.Add far beyond any real clock is not modelled.
- Notifier.Notifier.Notify: covers the local delivery; publishing on the bus comes back as further deliveries of NotifierRuns, and the resubscribe timer of Run is left out.
- Serialiser.Serialiser.Acquire: the mutex makes each call one step; blocking on the channel is a step of SerialiserProtocol.
- SerialiserProtocol.CallsCanAllReturn: possibility, not fairness; which waiting call Go wakes first is not specified by the language.
- Aggregation.PlanBundle: Wanted and Empty, one-line readings of a plan, are not modelled.
- One-line readings elsewhere (CanSend, CanInvite, CanKick, CanBan, CanRedact, Outranks, Locked, RetryAfter, KeyID and the base64 helpers) and RoomIDFor would add only easy members.
- SHA-256, Ed25519 and base64 are uninterpreted functions with the properties named above.
- Forks: an event with several predecessors is refused by the builder, so state resolution is not part of this model.
- Encryption of redactable events, field validators, request types, tags, presence, typing, receipts and the directory are single checks or plain data.
- Pagination and sync tokens: only the order of positions is modelled, as visibility and aggregation use it.
- The database, the HTTP layer, configuration and start-up are plumbing over libraries that are not part of this model.
