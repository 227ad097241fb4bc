/**
 * The circuit breaker of packages/factory/util/breaker.ts: it counts
 * consecutive failures of the calls it guards and stops calling once the
 * count reaches its threshold.
 */
module Breaker {
  import opened Wrappers

  /** How the guarded call settles: with a value, or by throwing. */
  datatype Outcome<T> = Returned(value: T) | Threw

  /** The effect of one `run`: the new failure count, the value returned, and whether `fn` was called. */
  datatype Step<T> = Step(fails: int, result: Option<T>, called: bool)

  function RunStep<T>(fails: int, threshold: int, outcome: Outcome<T>): Step<T> {
    if fails >= threshold then Step(fails, None, false)
    else match outcome
      case Returned(v) => Step(0, Some(v), true)
      case Threw => Step(fails + 1, None, true)
  }

  function Max0(x: int): nat {
    if x < 0 then 0 else x
  }

  class Breaker {
    var fails: int
    const threshold: int

    /** The counter stays between 0 and the threshold (0 when the threshold is negative). */
    predicate Valid()
      reads this
    {
      0 <= fails <= Max0(threshold)
    }

    constructor (threshold: int)
      ensures this.threshold == threshold && fails == 0
      ensures Valid()
    {
      this.threshold := threshold;
      fails := 0;
    }

    /** `run(label, fn)`, where `outcome` is how the call to `fn` would settle. */
    method Run<T>(outcome: Outcome<T>) returns (r: Option<T>, called: bool)
      requires Valid()
      modifies this
      ensures Valid()
      ensures old(fails) >= threshold ==> r.None? && !called && fails == old(fails)
      ensures old(fails) < threshold ==> called
      ensures old(fails) < threshold && outcome.Returned? ==> fails == 0 && r == Some(outcome.value)
      ensures old(fails) < threshold && outcome.Threw? ==> fails == old(fails) + 1 && r.None?
      ensures Step(fails, r, called) == RunStep(old(fails), threshold, outcome)
    {
      if fails >= threshold {
        return None, false;
      }
      called := true;
      match outcome {
        case Returned(v) =>
          fails := 0;
          r := Some(v);
        case Threw =>
          fails := fails + 1;
          r := None;
      }
    }
  }

  /** The failure count after a series of runs. */
  function FailsAfter<T>(fails: int, threshold: int, outcomes: seq<Outcome<T>>): int
    decreases |outcomes|
  {
    if outcomes == [] then fails
    else FailsAfter(RunStep(fails, threshold, outcomes[0]).fails, threshold, outcomes[1..])
  }

  /** How many of a series of runs call `fn`. */
  function CallsIn<T>(fails: int, threshold: int, outcomes: seq<Outcome<T>>): nat
    decreases |outcomes|
  {
    if outcomes == [] then 0
    else
      var s := RunStep(fails, threshold, outcomes[0]);
      (if s.called then 1 else 0) + CallsIn(s.fails, threshold, outcomes[1..])
  }

  /** An open breaker never closes: every later run returns null without calling `fn`. */
  lemma {:induction false} OpenStaysOpen<T>(fails: int, threshold: int, outcomes: seq<Outcome<T>>)
    requires fails >= threshold
    ensures FailsAfter(fails, threshold, outcomes) == fails
    ensures CallsIn(fails, threshold, outcomes) == 0
    decreases |outcomes|
  {
    if outcomes != [] {
      OpenStaysOpen(fails, threshold, outcomes[1..]);
    }
  }

  /** Every run keeps the failure count between 0 and the threshold. */
  lemma {:induction false} FailsBounded<T>(fails: int, threshold: int, outcomes: seq<Outcome<T>>)
    requires 0 <= fails <= Max0(threshold)
    ensures 0 <= FailsAfter(fails, threshold, outcomes) <= Max0(threshold)
    decreases |outcomes|
  {
    if outcomes != [] {
      FailsBounded(RunStep(fails, threshold, outcomes[0]).fails, threshold, outcomes[1..]);
    }
  }

  /** From a fresh breaker, `threshold` failures in a row open it, and the next run short-circuits. */
  lemma {:induction false} ThresholdFailuresOpen<T>(threshold: nat, fails: nat, outcomes: seq<Outcome<T>>, next: Outcome<T>)
    requires fails + |outcomes| == threshold
    requires forall i :: 0 <= i < |outcomes| ==> outcomes[i].Threw?
    ensures FailsAfter(fails, threshold, outcomes) == threshold
    ensures CallsIn(fails, threshold, outcomes) == |outcomes|
    ensures RunStep(FailsAfter(fails, threshold, outcomes), threshold, next) == Step(threshold, None, false)
    decreases |outcomes|
  {
    if outcomes != [] {
      ThresholdFailuresOpen(threshold, fails + 1, outcomes[1..], next);
    }
  }
}
