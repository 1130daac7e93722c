/** The lockout window: how many failed attempts in a stretch of time certainly lock a subject
    out.  Times and durations are in nanoseconds; time 0 is Go's zero time. */
module Lockout {
  import opened Wrappers

  const MAX_DURATION := 0x7FFF_FFFF_FFFF_FFFF
  const MIN_DURATION := -0x8000_0000_0000_0000
  const ZERO_TIME := 0

  type Duration = d: int | MIN_DURATION <= d <= MAX_DURATION witness 0

  datatype Policy = Policy(maxFailures: int, window: Duration, lockFor: Duration)

  datatype Attempt = Attempt(failures: int, windowStart: int, lockedUntil: Option<int>)

  /** Go's Time.Sub saturates at the longest duration. */
  function Since(now: int, start: int): Duration {
    if now - start > MAX_DURATION then MAX_DURATION
    else if now - start < MIN_DURATION then MIN_DURATION
    else now - start
  }

  /** A duration is a signed 64-bit number, and the time between two times the nearest one. */
  lemma SinceIsTheNearest(now: int, start: int, d: Duration)
    ensures -9223372036854775808 <= d <= 9223372036854775807
    ensures -9223372036854775808 <= now - start <= 9223372036854775807 ==> Since(now, start) == now - start
    ensures now - start > Since(now, start) ==> d <= Since(now, start)
    ensures now - start < Since(now, start) ==> Since(now, start) <= d
  {
  }

  predicate Restarts(a: Attempt, now: int, policy: Policy) {
    a.windowStart == ZERO_TIME || Since(now, a.windowStart) > policy.window
  }

  /** The attempt as updated step by step on a copy. */
  method Fail(a: Attempt, now: int, policy: Policy) returns (next: Attempt)
    ensures next == AfterFailure(a, now, policy)
  {
    next := a;
    if next.windowStart == ZERO_TIME || Since(now, next.windowStart) > policy.window {
      next := next.(windowStart := now);
      next := next.(failures := 0);
    }
    next := next.(failures := next.failures + 1);
    if next.failures >= policy.maxFailures {
      next := next.(lockedUntil := Some(now + policy.lockFor));
    }
  }

  function AfterFailure(a: Attempt, now: int, policy: Policy): Attempt {
    var failures := if Restarts(a, now, policy) then 1 else a.failures + 1;
    Attempt(failures,
            if Restarts(a, now, policy) then now else a.windowStart,
            if failures >= policy.maxFailures then Some(now + policy.lockFor) else a.lockedUntil)
  }

  // ----- runs

  function AfterAll(a: Attempt, times: seq<int>, policy: Policy): Attempt
    decreases |times|
  {
    if times == [] then a else AfterAll(AfterFailure(a, times[0], policy), times[1..], policy)
  }

  /** The i-th failure locks, for as long as the policy says. */
  ghost predicate LocksAt(a: Attempt, times: seq<int>, policy: Policy, i: nat)
    requires i < |times|
  {
    AfterAll(a, times[..i + 1], policy).failures >= policy.maxFailures
  }

  lemma LockingSetsTheTime(a: Attempt, times: seq<int>, policy: Policy, i: nat)
    requires i < |times|
    ensures LocksAt(a, times, policy, i) ==>
              AfterAll(a, times[..i + 1], policy).lockedUntil == Some(times[i] + policy.lockFor)
  {
    LastStep(a, times[..i + 1], policy);
    assert times[..i + 1][i] == times[i];
  }

  lemma {:induction false} LastStep(a: Attempt, times: seq<int>, policy: Policy)
    requires times != []
    ensures AfterAll(a, times, policy)
         == AfterFailure(AfterAll(a, times[..|times| - 1], policy), times[|times| - 1], policy)
    decreases |times|
  {
    if |times| > 1 {
      LastStep(AfterFailure(a, times[0], policy), times[1..], policy);
      assert times[..|times| - 1][1..] == times[1..][..|times| - 2];
    } else {
      assert times[1..] == [] && times[..0] == [];
    }
  }

  lemma LocksLater(a: Attempt, times: seq<int>, policy: Policy, i: nat)
    requires times != [] && i < |times| - 1
    ensures LocksAt(AfterFailure(a, times[0], policy), times[1..], policy, i) <==> LocksAt(a, times, policy, i + 1)
  {
    assert times[..i + 2][1..] == times[1..][..i + 1];
  }

  lemma LocksFirst(a: Attempt, times: seq<int>, policy: Policy)
    requires times != []
    ensures LocksAt(a, times, policy, 0) <==> AfterFailure(a, times[0], policy).failures >= policy.maxFailures
  {
    LastStep(a, times[..1], policy);
    assert times[..1][..0] == [];
  }

  /** Times never go back and none of them is Go's zero time. */
  ghost predicate IsClock(times: seq<int>) {
    && (forall i, j | 0 <= i < j < |times| :: times[i] <= times[j])
    && (forall i | 0 <= i < |times| :: times[i] != ZERO_TIME)
  }

  // ----- the bound

  /** Inside one window every failure counts. */
  lemma {:induction false} OneWindowLocks(a: Attempt, times: seq<int>, policy: Policy)
    requires a.windowStart != ZERO_TIME && times != []
    requires policy.window >= 0 && forall k | 0 <= k < |times| :: times[k] - a.windowStart <= policy.window
    requires a.failures + |times| >= policy.maxFailures
    ensures exists i | 0 <= i < |times| :: LocksAt(a, times, policy, i)
    decreases |times|
  {
    LocksFirst(a, times, policy);
    if !LocksAt(a, times, policy, 0) {
      var next := AfterFailure(a, times[0], policy);
      OneWindowLocks(next, times[1..], policy);
      var i :| 0 <= i < |times| - 1 && LocksAt(next, times[1..], policy, i);
      LocksLater(a, times, policy, i);
    }
  }

  /** How many failures within one window's length certainly lock: as many as the limit for a
      fresh subject, and up to twice that less one for a subject whose window may run out on
      the way, less the failures already counted. */
  ghost predicate Enough(a: Attempt, count: nat, policy: Policy) {
    && count >= 1 && count >= policy.maxFailures
    && (a.windowStart != ZERO_TIME ==> count + a.failures >= 2 * policy.maxFailures - 1)
  }

  lemma {:induction false} EnoughFailuresLock(a: Attempt, times: seq<int>, policy: Policy)
    requires IsClock(times) && a.failures >= 0 && Enough(a, |times|, policy)
    requires times[|times| - 1] - times[0] <= policy.window
    ensures exists i | 0 <= i < |times| :: LocksAt(a, times, policy, i)
    decreases |times|
  {
    var next := AfterFailure(a, times[0], policy);
    LocksFirst(a, times, policy);
    if !LocksAt(a, times, policy, 0) {
      if Restarts(a, times[0], policy) {
        OneWindowLocks(next, times[1..], policy);
      } else {
        EnoughFailuresLock(next, times[1..], policy);
      }
      var i :| 0 <= i < |times| - 1 && LocksAt(next, times[1..], policy, i);
      LocksLater(a, times, policy, i);
    }
  }

  /** A subject nothing was ever recorded for. */
  const FRESH := Attempt(0, ZERO_TIME, None)

  /** Every attempt on record is what failures made of a fresh one: its window is open only with
      a failure counted in it. */
  lemma {:induction false} OpenWindowsHoldAFailure(earlier: seq<int>, policy: Policy)
    ensures var a := AfterAll(FRESH, earlier, policy);
            a.failures >= 0 && (a.windowStart != ZERO_TIME ==> a.failures >= 1)
    decreases |earlier|
  {
    if earlier != [] {
      OpenWindowsHoldAFailure(earlier[..|earlier| - 1], policy);
      LastStep(FRESH, earlier, policy);
    }
  }

  /** Whatever failures came before, the next 2 * MaxFailures - 2 within a window's length lock,
      and so does a single one where that is none. */
  lemma TwiceTheLimitLocks(earlier: seq<int>, times: seq<int>, policy: Policy)
    requires IsClock(times) && times != [] && times[|times| - 1] - times[0] <= policy.window
    requires |times| >= 2 * policy.maxFailures - 2
    ensures var a := AfterAll(FRESH, earlier, policy);
            exists i | 0 <= i < |times| ::
              && LocksAt(a, times, policy, i)
              && AfterAll(a, times[..i + 1], policy).lockedUntil == Some(times[i] + policy.lockFor)
  {
    var a := AfterAll(FRESH, earlier, policy);
    OpenWindowsHoldAFailure(earlier, policy);
    EnoughFailuresLock(a, times, policy);
    var i :| 0 <= i < |times| && LocksAt(a, times, policy, i);
    LockingSetsTheTime(a, times, policy, i);
  }

  // ----- the bound is met

  /** Failures just before and just after a window runs out. */
  function Straddling(first: nat, second: nat, window: Duration): seq<int> {
    seq(first, i => 1 + window) + seq(second, i => 2 + window)
  }

  lemma {:induction false} StraddlingState(recorded: nat, policy: Policy, i: nat)
    requires 1 <= policy.window < MAX_DURATION && recorded < policy.maxFailures
    requires i <= 2 * policy.maxFailures - 2 - recorded
    ensures var first := policy.maxFailures - 1 - recorded;
            var times := Straddling(first, policy.maxFailures - 1, policy.window);
            AfterAll(Attempt(recorded, 1, None), times[..i], policy) ==
              if i <= first then Attempt(recorded + i, 1, None) else Attempt(i - first, 2 + policy.window, None)
    decreases i
  {
    var first := policy.maxFailures - 1 - recorded;
    var times := Straddling(first, policy.maxFailures - 1, policy.window);
    if i > 0 {
      StraddlingState(recorded, policy, i - 1);
      LastStep(Attempt(recorded, 1, None), times[..i], policy);
      assert times[..i][..i - 1] == times[..i - 1];
    } else {
      assert times[..0] == [];
    }
  }

  lemma {:induction false} CountingUp(count: nat, policy: Policy)
    requires 1 <= count < policy.maxFailures && policy.window >= 0
    ensures AfterAll(FRESH, seq(count, i => 1), policy) == Attempt(count, 1, None)
    decreases count
  {
    var times := seq(count, i => 1);
    LastStep(FRESH, times, policy);
    if count > 1 {
      CountingUp(count - 1, policy);
      assert times[..count - 1] == seq(count - 1, i => 1);
    } else {
      assert times[..0] == [];
    }
  }

  /** No smaller number will do, whatever number of failures was recorded first: when their
      window is about to run out, 2 * MaxFailures - 2 less those recorded can pass within a
      nanosecond unlocked.  With one recorded that is one fewer than certainly locks. */
  lemma TheBoundIsTight(recorded: nat, policy: Policy)
    requires 1 <= policy.window < MAX_DURATION && 1 <= recorded < policy.maxFailures
    ensures exists earlier: seq<int>, times: seq<int> ::
              && |earlier| == recorded && IsClock(earlier + times)
              && AfterAll(FRESH, earlier, policy).failures == recorded
              && |times| == 2 * policy.maxFailures - 2 - recorded
              && (times != [] ==> times[|times| - 1] - times[0] <= 1)
              && forall i | 0 <= i < |times| :: !LocksAt(AfterAll(FRESH, earlier, policy), times, policy, i)
  {
    var earlier := seq(recorded, i => 1);
    var times := Straddling(policy.maxFailures - 1 - recorded, policy.maxFailures - 1, policy.window);
    CountingUp(recorded, policy);
    forall i | 0 <= i < |times|
      ensures !LocksAt(AfterAll(FRESH, earlier, policy), times, policy, i)
    {
      StraddlingState(recorded, policy, i + 1);
    }
    assert IsClock(earlier + times);
    assert AfterAll(FRESH, earlier, policy).failures == recorded;
  }

  /** Go's zero time must be excluded: failures reported at it never open a window, so with a
      limit of two or more no number of them locks. */
  lemma {:induction false} ZeroTimeNeverLocks(count: nat, policy: Policy)
    requires policy.maxFailures >= 2
    ensures var times := seq(count, i => ZERO_TIME);
            && AfterAll(FRESH, times, policy).lockedUntil.None?
            && AfterAll(FRESH, times, policy).failures <= 1
            && AfterAll(FRESH, times, policy).windowStart == ZERO_TIME
  {
    var times := seq(count, i => ZERO_TIME);
    if count > 0 {
      ZeroTimeNeverLocks(count - 1, policy);
      LastStep(FRESH, times, policy);
      assert times[..count - 1] == seq(count - 1, i => ZERO_TIME);
    }
  }

  // ----- the lock itself

  /** Under one policy the time a subject is locked until never moves backwards, from a start
      that is not locked beyond what the first failure would set. */
  lemma {:induction false} LocksNeverMoveBack(a: Attempt, times: seq<int>, policy: Policy)
    requires forall i, j | 0 <= i < j < |times| :: times[i] <= times[j]
    requires a.lockedUntil.Some? && times != [] ==> a.lockedUntil.value <= times[0] + policy.lockFor
    ensures a.lockedUntil.Some? ==>
              && AfterAll(a, times, policy).lockedUntil.Some?
              && a.lockedUntil.value <= AfterAll(a, times, policy).lockedUntil.value
    decreases |times|
  {
    if times != [] {
      LocksNeverMoveBack(AfterFailure(a, times[0], policy), times[1..], policy);
    }
  }
}
