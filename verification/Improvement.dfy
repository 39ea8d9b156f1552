/** What repeated improvement by more than a threshold amounts to. */
module Improvement {
  /** The score rose `times` times, by more than `step` each time. */
  ghost predicate Gained(from: real, to: real, times: nat, step: real) {
    to >= from + times as real * step && (times > 0 ==> to > from + step)
  }

  lemma GainedOnce(from: real, mid: real, to: real, times: nat, step: real)
    requires Gained(from, mid, times, step) && to > mid + step && step >= 0.0
    ensures Gained(from, to, times + 1, step)
  {
    assert (times + 1) as real * step == times as real * step + step;
    assert times as real * step >= 0.0;
  }

  // ---- Repeating until nothing changes -----------------------------------------------

  ghost predicate LeadsOn<T(!new)>(maps: seq<T>, k: int, leads: (T, T) -> bool)
    requires 0 <= k < |maps| - 1
  {
    leads(maps[k], maps[k + 1]) && maps[k] != maps[k + 1]
  }

  /** Each one leads to the next, which is different. */
  ghost predicate StepByStep<T(!new)>(maps: seq<T>, leads: (T, T) -> bool) {
    forall k {:trigger LeadsOn(maps, k, leads)} :: 0 <= k < |maps| - 1 ==> LeadsOn(maps, k, leads)
  }

  /** What is reached step by step, until a step changes nothing or there were enough. */
  ghost predicate Repeated<T(!new)>(maps: seq<T>, limit: nat, leads: (T, T) -> bool) {
    && 0 < |maps| <= limit + 1 && StepByStep(maps, leads)
    && (|maps| < limit + 1 ==> leads(maps[|maps| - 1], maps[|maps| - 1]))
  }

  /** From anywhere a step leads to one place at most. */
  ghost predicate OneWay<T(!new)>(leads: (T, T) -> bool) {
    forall a, b, c {:trigger leads(a, b), leads(a, c)} :: leads(a, b) && leads(a, c) ==> b == c
  }

  lemma OneStepOn<T(!new)>(maps: seq<T>, next: T, leads: (T, T) -> bool)
    requires maps != [] && StepByStep(maps, leads) && leads(maps[|maps| - 1], next) && maps[|maps| - 1] != next
    ensures StepByStep(maps + [next], leads)
  {
    var now := maps + [next];
    forall k | 0 <= k < |now| - 1 ensures LeadsOn(now, k, leads) {
      if k < |maps| - 1 { assert LeadsOn(maps, k, leads); }
    }
  }

  /** Where each step has one outcome, so have all of them together. */
  lemma {:induction false} RepeatedIsUnique<T(!new)>(a: seq<T>, b: seq<T>, limit: nat, leads: (T, T) -> bool, k: nat)
    requires Repeated(a, limit, leads) && Repeated(b, limit, leads) && OneWay(leads) && a[0] == b[0] && k < |a|
    ensures k < |b| && a[k] == b[k]
  {
    if k > 0 {
      RepeatedIsUnique(a, b, limit, leads, k - 1);
      assert LeadsOn(a, k - 1, leads);
      if |b| > k { assert LeadsOn(b, k - 1, leads); }
    }
  }
}
