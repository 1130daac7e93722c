/** Runs of the registry: Wait, cancel, deliver and receive in any order.  The steps change the
    registry by the functions the Notifier's methods are proved to follow. */
module NotifierRuns {
  import opened Notifier
  import Text

  type WaiterId = nat

  /** `keysOf` remembers every waiter ever created, `live` those not cancelled, `pending` those
      whose slot holds the token. */
  datatype Registry = Registry(
    groups: Groups<WaiterId>,
    keysOf: map<WaiterId, seq<string>>,
    live: set<WaiterId>,
    pending: set<WaiterId>)

  datatype Step =
    | Wait(id: WaiterId, keys: seq<string>)
    | Cancel(id: WaiterId)
    | Deliver(message: string)
    | Receive(id: WaiterId)

  const EMPTY := Registry(map[], map[], {}, {})

  predicate Enabled(r: Registry, step: Step) {
    match step
    case Wait(id, _) => id !in r.keysOf
    case Cancel(id) => id in r.keysOf
    case Deliver(_) => true
    case Receive(id) => id in r.pending
  }

  function Next(r: Registry, step: Step): Registry
    requires Enabled(r, step)
  {
    match step
    case Wait(id, keys) =>
      Registry(AddTo(r.groups, keys, id), r.keysOf[id := keys], r.live + {id}, r.pending)
    case Cancel(id) =>
      r.(groups := RemoveFrom(r.groups, r.keysOf[id], id), live := r.live - {id})
    case Deliver(message) =>
      r.(pending := r.pending + Woken(r.groups, KeysIn(message)))
    case Receive(id) =>
      r.(pending := r.pending - {id})
  }

  // ----- the index

  /** Each group is exactly the live waiters for its key, and no group is empty. */
  ghost predicate IndexIsExact(r: Registry) {
    && r.live <= r.keysOf.Keys && r.pending <= r.keysOf.Keys
    && (forall key | key in r.groups :: r.groups[key] != {})
    && (forall key, id :: id in GroupOf(r.groups, key) <==> id in r.live && key in r.keysOf[id])
  }

  lemma StepKeepsIndex(r: Registry, step: Step)
    requires IndexIsExact(r) && Enabled(r, step)
    ensures IndexIsExact(Next(r, step))
  {
    var t := Next(r, step);
    match step
    case Wait(id, keys) =>
      forall key, other
        ensures other in GroupOf(t.groups, key) <==> other in t.live && key in t.keysOf[other]
      {
        assert other in GroupOf(r.groups, key) <==> other in r.live && key in r.keysOf[other];
      }
    case Cancel(id) =>
      forall key, other
        ensures other in GroupOf(t.groups, key) <==> other in t.live && key in t.keysOf[other]
      {
        assert other in GroupOf(r.groups, key) <==> other in r.live && key in r.keysOf[other];
      }
    case Deliver(message) =>
      forall id | id in Woken(r.groups, KeysIn(message))
        ensures id in r.keysOf
      {
        var key :| key in KeysIn(message) && key in r.groups && id in r.groups[key];
        assert id in GroupOf(r.groups, key);
      }
    case Receive(id) =>
  }

  // ----- runs

  ghost predicate IsRun(r: Registry, steps: seq<Step>)
    decreases |steps|, 0
  {
    steps == [] || (IsRun(r, steps[..|steps| - 1]) && Enabled(After(r, steps[..|steps| - 1]), steps[|steps| - 1]))
  }

  ghost function After(r: Registry, steps: seq<Step>): Registry
    requires IsRun(r, steps)
    decreases |steps|, 1
  {
    if steps == [] then r else Next(After(r, steps[..|steps| - 1]), steps[|steps| - 1])
  }

  /** A run can go on with any delivery, with cancelling any waiter once more, live or not, and with
      a new waiter under any unused number; receiving takes a token. */
  lemma RunsGoOn(r: Registry, steps: seq<Step>, id: WaiterId, keys: seq<string>, message: string)
    requires IsRun(r, steps)
    ensures IsRun(r, steps + [Deliver(message)])
    ensures IsRun(r, steps + [Cancel(id)]) <==> id in After(r, steps).keysOf
    ensures IsRun(r, steps + [Wait(id, keys)]) <==> id !in After(r, steps).keysOf
    ensures IsRun(r, steps + [Receive(id)]) <==> id in After(r, steps).pending
  {
    forall step
      ensures IsRun(r, steps + [step]) <==> Enabled(After(r, steps), step)
    {
      assert (steps + [step])[..|steps|] == steps;
    }
  }

  /** After any run, waiters[k] is exactly the live waiters whose keys include k. */
  lemma {:induction false} IndexHoldsThroughout(steps: seq<Step>)
    requires IsRun(EMPTY, steps)
    ensures IndexIsExact(After(EMPTY, steps))
    decreases |steps|
  {
    if steps != [] {
      IndexHoldsThroughout(steps[..|steps| - 1]);
      StepKeepsIndex(After(EMPTY, steps[..|steps| - 1]), steps[|steps| - 1]);
    }
  }

  /** After any run the keys of the table, which Watching counts, are those some live waiter has,
      and there are none exactly when nobody live waits for anything. */
  lemma WatchedKeysAreWaitedFor(steps: seq<Step>)
    requires IsRun(EMPTY, steps)
    ensures var r := After(EMPTY, steps);
            && (forall key :: key in r.groups <==> exists id :: id in r.live && id in r.keysOf && key in r.keysOf[id])
            && (r.groups == map[] <==> forall id | id in r.live :: id in r.keysOf && r.keysOf[id] == [])
  {
    var r := After(EMPTY, steps);
    IndexHoldsThroughout(steps);
    forall key
      ensures key in r.groups <==> exists id :: id in r.live && id in r.keysOf && key in r.keysOf[id]
    {
      if key in r.groups {
        var id :| id in r.groups[key];
        assert id in GroupOf(r.groups, key);
        assert id in r.live && id in r.keysOf && key in r.keysOf[id];
      }
      if exists id :: id in r.live && id in r.keysOf && key in r.keysOf[id] {
        var id :| id in r.live && id in r.keysOf && key in r.keysOf[id];
        assert id in GroupOf(r.groups, key);
      }
    }
    forall id | id in r.live && id in r.keysOf && r.keysOf[id] != []
      ensures r.groups != map[]
    {
      assert r.keysOf[id][0] in r.groups;
    }
    assert r.groups == map[] <==> forall key :: key !in r.groups;
  }

  // ----- wake-ups

  ghost predicate Names(step: Step, keys: seq<string>) {
    step.Deliver? && exists key :: key in KeysIn(step.message) && key in keys
  }

  /** Step i named one of the waiter's keys, and since then the waiter neither began nor received. */
  ghost predicate WokenAt(steps: seq<Step>, id: WaiterId, keys: seq<string>, i: nat) {
    && i < |steps| && Names(steps[i], keys)
    && forall j | i <= j < |steps| :: !Begins(steps[j], id) && steps[j] != Receive(id)
  }

  ghost predicate Begins(step: Step, id: WaiterId) {
    step.Wait? && step.id == id
  }

  /** A live waiter's token is pending exactly when a delivery named one of its keys since it
      last received, or since it began if it never did. */
  lemma {:induction false} TokensMarkMissedDeliveries(steps: seq<Step>, id: WaiterId)
    requires IsRun(EMPTY, steps) && id in After(EMPTY, steps).live
    ensures id in After(EMPTY, steps).keysOf
    ensures var keys := After(EMPTY, steps).keysOf[id];
            id in After(EMPTY, steps).pending <==> exists i :: WokenAt(steps, id, keys, i)
    decreases |steps|
  {
    IndexHoldsThroughout(steps);
    var front, last := steps[..|steps| - 1], steps[|steps| - 1];
    var before, after := After(EMPTY, front), After(EMPTY, steps);
    IndexHoldsThroughout(front);
    var keys := after.keysOf[id];
    LastStepDecides(steps, id, keys);
    if !Begins(last, id) {
      assert id in before.live && before.keysOf[id] == keys;
      TokensMarkMissedDeliveries(front, id);
      if last.Deliver? {
        NamedMeansWoken(before, last.message, id);
      }
    }
  }

  lemma NamedMeansWoken(r: Registry, message: string, id: WaiterId)
    requires IndexIsExact(r) && id in r.live
    ensures id in Woken(r.groups, KeysIn(message)) <==> Names(Deliver(message), r.keysOf[id])
  {
    if id in Woken(r.groups, KeysIn(message)) {
      var key :| key in KeysIn(message) && key in r.groups && id in r.groups[key];
      assert id in GroupOf(r.groups, key);
    }
    if Names(Deliver(message), r.keysOf[id]) {
      var key :| key in KeysIn(message) && key in r.keysOf[id];
      assert id in GroupOf(r.groups, key);
    }
  }

  lemma LastStepDecides(steps: seq<Step>, id: WaiterId, keys: seq<string>)
    requires steps != []
    ensures var front, last := steps[..|steps| - 1], steps[|steps| - 1];
            (exists i :: WokenAt(steps, id, keys, i)) <==>
              && !Begins(last, id) && last != Receive(id)
              && (Names(last, keys) || exists i :: WokenAt(front, id, keys, i))
  {
    var n := |steps| - 1;
    var front, last := steps[..n], steps[n];
    if exists i :: WokenAt(steps, id, keys, i) {
      var i: nat :| WokenAt(steps, id, keys, i);
      if i < n {
        assert forall j | i <= j < n :: front[j] == steps[j];
        assert WokenAt(front, id, keys, i);
      }
    }
    if !Begins(last, id) && last != Receive(id) {
      if Names(last, keys) {
        assert WokenAt(steps, id, keys, n);
      } else if exists i :: WokenAt(front, id, keys, i) {
        var i: nat :| WokenAt(front, id, keys, i);
        assert forall j | i <= j < n :: front[j] == steps[j];
        assert WokenAt(steps, id, keys, i);
      }
    }
  }

  // ----- what a notification wakes

  /** Notifying keys free of the separator wakes exactly the live waiters for one of them. */
  lemma NotifyWakesItsWaiters(steps: seq<Step>, keys: seq<string>)
    requires IsRun(EMPTY, steps)
    requires keys != [] && forall i | 0 <= i < |keys| :: '\U{001E}' !in keys[i]
    ensures var r := After(EMPTY, steps);
            forall id :: id in Woken(r.groups, KeysIn(MessageFor(keys))) <==>
              id in r.live && id in r.keysOf && exists key :: key in keys && key in r.keysOf[id]
  {
    var r := After(EMPTY, steps);
    IndexHoldsThroughout(steps);
    Text.SplitOfJoin(keys, KEY_SEPARATOR);
    forall id
      ensures id in Woken(r.groups, keys) <==>
                id in r.live && id in r.keysOf && exists key :: key in keys && key in r.keysOf[id]
    {
      if id in Woken(r.groups, keys) {
        var key :| key in keys && key in r.groups && id in r.groups[key];
        assert id in GroupOf(r.groups, key);
      }
      if id in r.live && exists key :: key in keys && key in r.keysOf[id] {
        NamedMeansWokenBy(r, keys, id);
      }
    }
  }

  lemma NamedMeansWokenBy(r: Registry, keys: seq<string>, id: WaiterId)
    requires IndexIsExact(r) && id in r.live
    requires exists key :: key in keys && key in r.keysOf[id]
    ensures id in Woken(r.groups, keys)
  {
    var key :| key in keys && key in r.keysOf[id];
    assert id in GroupOf(r.groups, key);
  }
}
