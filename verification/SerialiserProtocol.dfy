/**
 Calls of Serialiser.Do interleaving on one table.  A call takes a reference to its key's gate
 (Acquire), waits for the gate's slot until it gets it (Enter) or its context ends (Cancel), runs
 its body, empties the slot (Release) and gives the reference back (Forget); the deferred calls
 run in that order.  The table steps are the ones the Serialiser's methods are proved to take.
 */
module SerialiserProtocol {
  import opened Serialiser

  type GateId = nat
  type CallId = nat

  datatype Phase = Waiting | Running | Leaving

  datatype Call = Call(key: string, gate: GateId, phase: Phase)

  /** `full` are the gates whose slot is taken; gates from `unused` on were never created. */
  datatype System = System(table: Table<GateId>, full: set<GateId>, calls: map<CallId, Call>, unused: GateId)

  datatype Step =
    | Acquire(id: CallId, key: string)
    | Enter(id: CallId)
    | Cancel(id: CallId)
    | Release(id: CallId)
    | Forget(id: CallId)

  const IDLE := System(map[], {}, map[], 0)

  predicate Enabled(s: System, step: Step) {
    if step.Acquire? then step.id !in s.calls
    else
      && step.id in s.calls
      && var call := s.calls[step.id];
      match step
      case Enter(_) => call.phase.Waiting? && call.gate !in s.full
      case Cancel(_) => call.phase.Waiting?
      case Release(_) => call.phase.Running? && call.gate in s.full
      case Forget(_) => call.phase.Leaving?
      case Acquire(_, _) => false
  }

  function Advance(s: System, id: CallId, phase: Phase): map<CallId, Call>
    requires id in s.calls
  {
    s.calls[id := s.calls[id].(phase := phase)]
  }

  function Next(s: System, step: Step): System
    requires Enabled(s, step)
  {
    match step
    case Acquire(id, key) =>
      var table := AcquireIn(s.table, key, s.unused);
      System(table, s.full, s.calls[id := Call(key, table[key].gate, Waiting)],
             if key in s.table then s.unused else s.unused + 1)
    case Enter(id) =>
      s.(full := s.full + {s.calls[id].gate}, calls := Advance(s, id, Running))
    case Cancel(id) =>
      s.(calls := Advance(s, id, Leaving))
    case Release(id) =>
      s.(full := s.full - {s.calls[id].gate}, calls := Advance(s, id, Leaving))
    case Forget(id) =>
      s.(table := ForgetIn(s.table, s.calls[id].key), calls := s.calls - {id})
  }

  // ----- the invariant

  function CallsOn(s: System, key: string): set<CallId> {
    set id | id in s.calls && s.calls[id].key == key
  }

  /** A call holds the gate its key has in the table, and the gate counts exactly its calls. */
  ghost predicate CountsAgree(s: System) {
    && (forall id | id in s.calls :: s.calls[id].key in s.table && s.table[s.calls[id].key].gate == s.calls[id].gate)
    && (forall key | key in s.table :: s.table[key].refs == |CallsOn(s, key)| && s.table[key].refs > 0)
  }

  ghost predicate GatesApart(s: System) {
    && (forall key | key in s.table :: s.table[key].gate < s.unused)
    && (forall k, l | k in s.table && l in s.table :: s.table[k].gate == s.table[l].gate ==> k == l)
  }

  /** A slot is taken exactly while one call runs behind it. */
  ghost predicate SlotsHeld(s: System) {
    && (forall id | id in s.calls && s.calls[id].phase.Running? :: s.calls[id].gate in s.full)
    && (forall g | g in s.full :: exists id :: id in s.calls && s.calls[id].gate == g && s.calls[id].phase.Running?)
    && (forall i, j | i in s.calls && j in s.calls && s.calls[i].phase.Running? && s.calls[j].phase.Running? ::
          s.calls[i].gate == s.calls[j].gate ==> i == j)
  }

  ghost predicate Sound(s: System) {
    CountsAgree(s) && GatesApart(s) && SlotsHeld(s)
  }

  // ----- every step keeps it

  lemma StepIsSound(s: System, step: Step)
    requires Sound(s) && Enabled(s, step)
    ensures Sound(Next(s, step))
  {
    if step.Acquire? {
      AcquireIsSound(s, step.id, step.key);
    } else if step.Forget? {
      ForgetIsSound(s, step.id);
    } else {
      SlotStepKeepsCounts(s, step);
      SlotStepKeepsSlots(s, step);
    }
  }

  lemma SlotStepKeepsCounts(s: System, step: Step)
    requires Sound(s) && Enabled(s, step) && !step.Acquire? && !step.Forget?
    ensures CountsAgree(Next(s, step)) && GatesApart(Next(s, step))
  {
    var t := Next(s, step);
    forall key | key in t.table
      ensures CallsOn(t, key) == CallsOn(s, key)
    {
    }
  }

  lemma SlotStepKeepsSlots(s: System, step: Step)
    requires Sound(s) && Enabled(s, step) && !step.Acquire? && !step.Forget?
    ensures SlotsHeld(Next(s, step))
  {
    var t := Next(s, step);
    if step.Enter? {
      EnteringTakesAFreeSlot(s, t, step.id);
    } else if step.Cancel? {
      SlotsAreLeftAlone(s, t);
    } else {
      ReleasingEmptiesTheSlot(s, t, step.id);
    }
  }

  lemma EnteringTakesAFreeSlot(s: System, t: System, id: CallId)
    requires SlotsHeld(s) && id in s.calls && s.calls[id].phase.Waiting? && s.calls[id].gate !in s.full
    requires t.calls == Advance(s, id, Running) && t.full == s.full + {s.calls[id].gate}
    ensures SlotsHeld(t)
  {
    forall g | g in t.full
      ensures exists holder :: holder in t.calls && t.calls[holder].gate == g && t.calls[holder].phase.Running?
    {
      if g == s.calls[id].gate {
        assert t.calls[id].gate == g;
      } else {
        var holder :| holder in s.calls && s.calls[holder].gate == g && s.calls[holder].phase.Running?;
        assert t.calls[holder] == s.calls[holder];
      }
    }
  }

  lemma ReleasingEmptiesTheSlot(s: System, t: System, id: CallId)
    requires SlotsHeld(s) && id in s.calls && s.calls[id].phase.Running?
    requires t.calls == Advance(s, id, Leaving) && t.full == s.full - {s.calls[id].gate}
    ensures SlotsHeld(t)
  {
    forall g | g in t.full
      ensures exists holder :: holder in t.calls && t.calls[holder].gate == g && t.calls[holder].phase.Running?
    {
      var holder :| holder in s.calls && s.calls[holder].gate == g && s.calls[holder].phase.Running?;
      assert t.calls[holder] == s.calls[holder];
    }
  }

  lemma AcquireIsSound(s: System, id: CallId, key: string)
    requires Sound(s) && Enabled(s, Acquire(id, key))
    ensures Sound(Next(s, Acquire(id, key)))
  {
    AcquireKeepsCounts(s, id, key);
    SlotsAreLeftAlone(s, Next(s, Acquire(id, key)));
  }

  lemma AddingACall(s: System, t: System, id: CallId, call: Call, other: string)
    requires id !in s.calls && t.calls == s.calls[id := call]
    ensures other != call.key ==> CallsOn(t, other) == CallsOn(s, other)
    ensures other == call.key ==> |CallsOn(t, other)| == |CallsOn(s, other)| + 1
  {
    if other == call.key {
      assert CallsOn(t, other) == CallsOn(s, other) + {id};
    } else {
      assert CallsOn(t, other) == CallsOn(s, other);
    }
  }

  lemma AcquireKeepsCounts(s: System, id: CallId, key: string)
    requires Sound(s) && Enabled(s, Acquire(id, key))
    ensures CountsAgree(Next(s, Acquire(id, key))) && GatesApart(Next(s, Acquire(id, key)))
  {
    var t := Next(s, Acquire(id, key));
    NobodyHoldsAMissingKey(s, key);
    forall other | other in t.table
      ensures t.table[other].refs == |CallsOn(t, other)| && t.table[other].refs > 0
    {
      AddingACall(s, t, id, t.calls[id], other);
      RefsAfterAcquire(s, t.table, id, key, other);
    }
  }

  lemma RefsAfterAcquire(s: System, table: Table<GateId>, id: CallId, key: string, other: string)
    requires CountsAgree(s) && table == AcquireIn(s.table, key, s.unused) && other in table
    requires key in s.table <==> CallsOn(s, key) != {}
    ensures table[other].refs == |CallsOn(s, other)| + (if other == key then 1 else 0)
  {
  }

  lemma NobodyHoldsAMissingKey(s: System, key: string)
    requires CountsAgree(s)
    ensures key in s.table <==> CallsOn(s, key) != {}
  {
  }

  lemma ForgetIsSound(s: System, id: CallId)
    requires Sound(s) && Enabled(s, Forget(id))
    ensures Sound(Next(s, Forget(id)))
  {
    ForgetKeepsCounts(s, id);
    SlotsAreLeftAlone(s, Next(s, Forget(id)));
  }

  lemma ForgetDropsTheCall(s: System, id: CallId, other: string)
    requires Enabled(s, Forget(id))
    ensures var t, key := Next(s, Forget(id)), s.calls[id].key;
            && (other != key ==> CallsOn(t, other) == CallsOn(s, other))
            && (other == key ==>
                  && CallsOn(t, other) == CallsOn(s, other) - {id}
                  && |CallsOn(t, other)| == |CallsOn(s, other)| - 1)
  {
  }

  lemma ForgetKeepsCounts(s: System, id: CallId)
    requires Sound(s) && Enabled(s, Forget(id))
    ensures CountsAgree(Next(s, Forget(id))) && GatesApart(Next(s, Forget(id)))
  {
    var t, key := Next(s, Forget(id)), s.calls[id].key;
    forall other | other in t.table
      ensures t.table[other].refs == |CallsOn(t, other)| && t.table[other].refs > 0
    {
      ForgetDropsTheCall(s, id, other);
    }
    ForgetDropsTheCall(s, id, key);
    forall other | other in t.calls
      ensures t.calls[other].key in t.table
    {
      assert t.calls[other].key == key ==> other in CallsOn(t, key);
    }
  }

  /** A step that starts or ends a call outside its body leaves the slots and their holders. */
  lemma SlotsAreLeftAlone(s: System, t: System)
    requires SlotsHeld(s) && t.full == s.full
    requires forall id | id in s.calls && s.calls[id].phase.Running? :: id in t.calls && t.calls[id] == s.calls[id]
    requires forall id | id in t.calls && t.calls[id].phase.Running? :: id in s.calls && t.calls[id] == s.calls[id]
    ensures SlotsHeld(t)
  {
  }

  // ----- all interleavings

  ghost predicate IsRun(s: System, steps: seq<Step>)
    decreases |steps|
  {
    steps == [] || (Enabled(s, steps[0]) && IsRun(Next(s, steps[0]), steps[1..]))
  }

  function After(s: System, steps: seq<Step>): System
    requires IsRun(s, steps)
    decreases |steps|
  {
    if steps == [] then s else After(Next(s, steps[0]), steps[1..])
  }

  lemma {:induction false} RunIsSound(s: System, steps: seq<Step>)
    requires Sound(s) && IsRun(s, steps)
    ensures Sound(After(s, steps))
    decreases |steps|
  {
    if steps != [] {
      StepIsSound(s, steps[0]);
      RunIsSound(Next(s, steps[0]), steps[1..]);
    }
  }

  /** Whatever the interleaving and whoever cancels: bodies of one key never overlap, a gate is
      in the table exactly while calls hold it and counts them, the deferred steps neither block
      nor miss, and nothing is left once every call has returned. */
  lemma CallsAreSerialised(steps: seq<Step>)
    requires IsRun(IDLE, steps)
    ensures var s := After(IDLE, steps);
            && (forall i, j | i in s.calls && j in s.calls && s.calls[i].phase.Running? && s.calls[j].phase.Running? ::
                  s.calls[i].key == s.calls[j].key ==> i == j)
            && (forall key :: key in s.table <==> CallsOn(s, key) != {})
            && (forall key | key in s.table :: s.table[key].refs == |CallsOn(s, key)|)
            && (forall id | id in s.calls ::
                  s.calls[id].key in s.table && s.table[s.calls[id].key].gate == s.calls[id].gate)
            && (forall id | id in s.calls && s.calls[id].phase.Running? :: Enabled(s, Release(id)))
            && (s.calls == map[] ==> s.table == map[] && s.full == {})
  {
    RunIsSound(IDLE, steps);
    var s := After(IDLE, steps);
    forall key
      ensures key in s.table <==> CallsOn(s, key) != {}
    {
      NobodyHoldsAMissingKey(s, key);
    }
    if s.calls == map[] {
      NoCallsNoTable(s);
    }
  }

  /** At any time anyone may call; a waiting call may give up, and may go in exactly when no call of
      its key is running; a running call may empty its slot and a leaving one give back. */
  lemma WhatCallsMayDo(steps: seq<Step>, id: CallId, key: string)
    requires IsRun(IDLE, steps)
    ensures var s := After(IDLE, steps);
            && (Enabled(s, Acquire(id, key)) <==> id !in s.calls)
            && (id !in s.calls ==>
                  && !Enabled(s, Enter(id)) && !Enabled(s, Cancel(id))
                  && !Enabled(s, Release(id)) && !Enabled(s, Forget(id)))
            && (id in s.calls ==>
                  && (Enabled(s, Enter(id)) <==>
                        && s.calls[id].phase == Waiting
                        && forall other | other in CallsOn(s, s.calls[id].key) :: s.calls[other].phase != Running)
                  && (Enabled(s, Cancel(id)) <==> s.calls[id].phase == Waiting)
                  && (Enabled(s, Release(id)) <==> s.calls[id].phase == Running)
                  && (Enabled(s, Forget(id)) <==> s.calls[id].phase == Leaving))
  {
    RunIsSound(IDLE, steps);
    var s := After(IDLE, steps);
    if id in s.calls {
      SlotsTellWhoRuns(s, id);
    }
  }

  lemma SlotsTellWhoRuns(s: System, id: CallId)
    requires Sound(s) && id in s.calls
    ensures s.calls[id].gate in s.full <==>
              exists other :: other in CallsOn(s, s.calls[id].key) && s.calls[other].phase == Running
  {
    var call := s.calls[id];
    if call.gate in s.full {
      var other :| other in s.calls && s.calls[other].gate == call.gate && s.calls[other].phase.Running?;
      assert s.table[s.calls[other].key].gate == s.table[call.key].gate;
      assert other in CallsOn(s, call.key);
    }
    if other :| other in CallsOn(s, call.key) && s.calls[other].phase == Running {
      assert s.calls[other].gate in s.full;
      assert s.calls[other].gate == s.table[s.calls[other].key].gate == s.table[call.key].gate == call.gate;
    }
  }

  lemma NoCallsNoTable(s: System)
    requires Sound(s) && s.calls == map[]
    ensures s.table == map[] && s.full == {}
  {
  }

  // ----- no call is stuck

  function InPhase(s: System, phase: Phase): set<CallId> {
    set id | id in s.calls && s.calls[id].phase == phase
  }

  /** The steps still ahead of the calls in hand. */
  function Work(s: System): nat {
    3 * |InPhase(s, Waiting)| + 2 * |InPhase(s, Running)| + |InPhase(s, Leaving)|
  }

  /** A step that gets on with the calls in hand: no new one, nobody cancelled. */
  lemma SomeStepIsEnabled(s: System) returns (step: Step)
    requires Sound(s) && s.calls != map[]
    ensures Enabled(s, step) && !step.Acquire? && !step.Cancel?
  {
    var id :| id in s.calls;
    if s.calls[id].phase.Leaving? {
      step := Forget(id);
    } else if s.calls[id].phase.Running? {
      step := Release(id);
    } else if s.calls[id].gate !in s.full {
      step := Enter(id);
    } else {
      var holder :| holder in s.calls && s.calls[holder].gate == s.calls[id].gate && s.calls[holder].phase.Running?;
      step := Release(holder);
    }
  }

  lemma AdvancingMovesTheCall(s: System, t: System, id: CallId, to: Phase)
    requires id in s.calls && t.calls == Advance(s, id, to) && s.calls[id].phase != to
    ensures |InPhase(t, s.calls[id].phase)| == |InPhase(s, s.calls[id].phase)| - 1
    ensures |InPhase(t, to)| == |InPhase(s, to)| + 1
  {
    var from := s.calls[id].phase;
    assert id in InPhase(s, from) && id !in InPhase(s, to);
    assert InPhase(t, from) == InPhase(s, from) - {id};
    assert InPhase(t, to) == InPhase(s, to) + {id};
  }

  lemma AdvancingLeavesTheRest(s: System, t: System, id: CallId, to: Phase, other: Phase)
    requires id in s.calls && t.calls == Advance(s, id, to) && other != s.calls[id].phase && other != to
    ensures InPhase(t, other) == InPhase(s, other)
  {
  }

  lemma AdvancingReducesWork(s: System, t: System, id: CallId, to: Phase)
    requires id in s.calls && t.calls == Advance(s, id, to)
    requires s.calls[id].phase.Waiting? ==> !to.Waiting?
    requires !s.calls[id].phase.Waiting? ==> s.calls[id].phase.Running? && to.Leaving?
    ensures Work(t) < Work(s)
  {
    AdvancingMovesTheCall(s, t, id, to);
    var other := if to.Running? then Leaving else if s.calls[id].phase.Waiting? then Running else Waiting;
    AdvancingLeavesTheRest(s, t, id, to, other);
  }

  lemma LeavingReducesWork(s: System, t: System, id: CallId)
    requires id in s.calls && s.calls[id].phase.Leaving? && t.calls == s.calls - {id}
    ensures Work(t) < Work(s)
  {
    assert id in InPhase(s, Leaving);
    assert InPhase(t, Leaving) == InPhase(s, Leaving) - {id};
    assert InPhase(t, Waiting) == InPhase(s, Waiting) && InPhase(t, Running) == InPhase(s, Running);
  }

  lemma StepsReduceWork(s: System, step: Step)
    requires Enabled(s, step) && !step.Acquire?
    ensures Work(Next(s, step)) < Work(s)
  {
    if step.Forget? {
      LeavingReducesWork(s, Next(s, step), step.id);
    } else {
      AdvancingReducesWork(s, Next(s, step), step.id, if step.Enter? then Running else Leaving);
    }
  }

  lemma SomeProgress(s: System) returns (step: Step, next: System)
    requires Sound(s) && s.calls != map[]
    ensures Enabled(s, step) && !step.Acquire? && !step.Cancel?
    ensures next == Next(s, step) && Sound(next) && Work(next) < Work(s)
  {
    step := SomeStepIsEnabled(s);
    next := Next(s, step);
    StepIsSound(s, step);
    StepsReduceWork(s, step);
  }

  lemma StepThenRun(s: System, step: Step, rest: seq<Step>)
    requires Enabled(s, step) && IsRun(Next(s, step), rest)
    ensures IsRun(s, [step] + rest) && After(s, [step] + rest) == After(Next(s, step), rest)
  {
  }

  /** From every state the interleavings reach, the calls in hand can all return without anyone
      being cancelled. */
  lemma CallsCanAllReturn(s: System) returns (steps: seq<Step>)
    requires Sound(s)
    ensures IsRun(s, steps) && forall i | 0 <= i < |steps| :: !steps[i].Acquire? && !steps[i].Cancel?
    ensures After(s, steps).calls == map[] && After(s, steps).table == map[]
    decreases Work(s)
  {
    if s.calls == map[] {
      steps := [];
      NoCallsNoTable(s);
    } else {
      var step, next := SomeProgress(s);
      var rest := CallsCanAllReturn(next);
      StepThenRun(s, step, rest);
      steps := [step] + rest;
    }
  }
}
