/** Runs of a room in which stored events are redacted on the way: one entry at a time, between
    any two events, and by whomever the server lets. */
module RedactedRuns {
  import opened RoomVersions
  import opened Events
  import opened PowerLevels
  import opened RoomState
  import opened RoomRuns
  import opened RoomSteps
  import opened RoomSafety
  import opened RedactedRooms

  datatype Step = Send(e: Event) | RedactEntry(key: StateKey)

  ghost predicate Enabled(s: StateMap, step: Step, version: RoomVersion) {
    match step
    case Send(e) => Accepts(s, e, version)
    case RedactEntry(key) => key in s
  }

  function Next(s: StateMap, step: Step): StateMap {
    match step
    case Send(e) => Apply(s, e)
    case RedactEntry(key) => RedactAt(s, {key})
  }

  /** The create event as the step leaves it. */
  function Made(create: Event, step: Step): Event {
    if step == RedactEntry(CREATE_KEY) then CreateAt(create, {CREATE_KEY}) else create
  }

  function After(s: StateMap, steps: seq<Step>): StateMap
    decreases |steps|
  {
    if steps == [] then s else After(Next(s, steps[0]), steps[1..])
  }

  ghost predicate IsRun(s: StateMap, steps: seq<Step>, version: RoomVersion)
    decreases |steps|
  {
    steps == [] || (Enabled(s, steps[0], version) && IsRun(Next(s, steps[0]), steps[1..], version))
  }

  lemma StepKeepsRoom(s: StateMap, step: Step, create: Event, version: RoomVersion)
    requires RoomInvariant(s, create, version) && Enabled(s, step, version)
    ensures RoomInvariant(Next(s, step), Made(create, step), version)
    ensures Made(create, step).Sender() == create.Sender()
    ensures CreatorsNamedBy(Made(create, step), version) == CreatorsNamedBy(create, version)
  {
    CreateSurvives(create, {CREATE_KEY}, version);
    match step
    case Send(e) => StepKeepsInvariant(s, e, create, version);
    case RedactEntry(key) => RedactedRoomIsSound(s, {key}, create, version);
  }

  /** A redaction moves nobody and changes no level. */
  lemma RedactionMovesNobody(s: StateMap, key: StateKey, create: Event, version: RoomVersion, userId: string)
    requires RoomInvariant(s, create, version)
    ensures Membership(RedactAt(s, {key}), userId) == Membership(s, userId)
    ensures LevelsOf(RedactAt(s, {key}), version).Some?
    ensures var before, after := LevelsOf(s, version).value, LevelsOf(RedactAt(s, {key}), version).value;
            after == before.(notifications := after.notifications)
  {
    LookupsSurvive(s, {key}, userId);
    LevelsSurvive(s, {key}, create, version);
  }

  ghost predicate IsSilent(step: Step, userId: string) {
    step.Send? ==> step.e.Sender() != userId
  }

  lemma SovereignStep(s: StateMap, step: Step, create: Event, version: RoomVersion, userId: string, level: int)
    requires RoomInvariant(s, create, version) && Enabled(s, step, version)
    requires !version.creatorsOutrankPowerLevels && Sovereign(s, version, userId, level) && IsSilent(step, userId)
    ensures Sovereign(Next(s, step), version, userId, level)
  {
    match step
    case Send(e) => SovereigntyStep(s, e, create, version, userId, level);
    case RedactEntry(key) => RedactionMovesNobody(s, key, create, version, userId);
  }

  /** Redactions do not help against the top user of version 11 either. */
  lemma {:induction false} SovereigntyOutlastsRedactions(s: StateMap, steps: seq<Step>, create: Event,
                                                         version: RoomVersion, userId: string, level: int)
    requires RoomInvariant(s, create, version) && IsRun(s, steps, version)
    requires !version.creatorsOutrankPowerLevels && Sovereign(s, version, userId, level)
    requires forall i | 0 <= i < |steps| :: IsSilent(steps[i], userId)
    ensures Sovereign(After(s, steps), version, userId, level)
    decreases |steps|
  {
    if steps != [] {
      SovereignStep(s, steps[0], create, version, userId, level);
      StepKeepsRoom(s, steps[0], create, version);
      SovereigntyOutlastsRedactions(Next(s, steps[0]), steps[1..], Made(create, steps[0]), version, userId, level);
    }
  }

  ghost predicate IsOwnExit(step: Step, userId: string) {
    step.Send? && IsOwnLeave(step.e, userId)
  }

  lemma CreatorSurvivesStep(s: StateMap, step: Step, create: Event, version: RoomVersion, creator: string)
    requires RoomInvariant(s, create, version) && Enabled(s, step, version)
    requires version.creatorsOutrankPowerLevels && creator in CreatorsNamedBy(create, version)
    requires Membership(s, creator) == JOIN
    ensures Membership(Next(s, step), creator) == JOIN <==> !IsOwnExit(step, creator)
  {
    match step
    case Send(e) => CreatorStep(s, e, create, version, creator);
    case RedactEntry(key) => RedactionMovesNobody(s, key, create, version, creator);
  }

  /** Nor against the creators of version 12: joined, they stay so until they leave, and keep the
      rank above all numbers even when the create event is redacted. */
  lemma {:induction false} CreatorsOutlastRedactions(s: StateMap, steps: seq<Step>, create: Event, version: RoomVersion,
                                                     creator: string)
    requires RoomInvariant(s, create, version) && IsRun(s, steps, version)
    requires version.creatorsOutrankPowerLevels && creator in CreatorsNamedBy(create, version)
    requires Membership(s, creator) == JOIN
    requires forall i | 0 <= i < |steps| :: !IsOwnExit(steps[i], creator)
    ensures Membership(After(s, steps), creator) == JOIN
    ensures LevelsOf(After(s, steps), version).Some?
    ensures LevelsOf(After(s, steps), version).value.UserLevel(creator) == CREATOR_RANK
    decreases |steps|
  {
    if steps == [] {
      LevelsCarryCreators(s, version);
    } else {
      CreatorSurvivesStep(s, steps[0], create, version, creator);
      StepKeepsRoom(s, steps[0], create, version);
      CreatorsOutlastRedactions(Next(s, steps[0]), steps[1..], Made(create, steps[0]), version, creator);
    }
  }

  /** The step lifts the user's ban. */
  ghost predicate Lifts(s: StateMap, step: Step, version: RoomVersion, userId: string) {
    step.Send? && LiftsBan(s, step.e, version, userId)
  }

  /** No step of the run does. */
  ghost predicate NeverLifted(s: StateMap, steps: seq<Step>, version: RoomVersion, userId: string)
    decreases |steps|
  {
    steps == [] || (!Lifts(s, steps[0], version, userId) && NeverLifted(Next(s, steps[0]), steps[1..], version, userId))
  }

  /** Nor for the banned: redacting the ban, or anything else, leaves them banned and silent. */
  lemma {:induction false} BansOutlastRedactions(s: StateMap, steps: seq<Step>, create: Event,
                                                 version: RoomVersion, userId: string)
    requires RoomInvariant(s, create, version) && IsRun(s, steps, version)
    requires Membership(s, userId) == BAN && NeverLifted(s, steps, version, userId)
    ensures Membership(After(s, steps), userId) == BAN
    ensures forall i | 0 <= i < |steps| :: IsSilent(steps[i], userId)
    decreases |steps|
  {
    if steps != [] {
      match steps[0] {
        case Send(e) => BanStep(s, e, create, version, userId);
        case RedactEntry(key) => RedactionMovesNobody(s, key, create, version, userId);
      }
      StepKeepsRoom(s, steps[0], create, version);
      BansOutlastRedactions(Next(s, steps[0]), steps[1..], Made(create, steps[0]), version, userId);
    }
  }
}
