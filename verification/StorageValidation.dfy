/** Storage readings: which ones are trusted, how far, and what they may change. */
module StorageValidation {
  import opened Wrappers

  datatype Reading = Reading(used: int, capacity: int, confidence: real) {
    predicate Valid() {
      capacity > 0 && 0 <= used <= capacity && 0.0 <= confidence <= 1.0
    }
  }

  type StorageCapacity = r: Reading | r.Valid() witness Reading(0, 1, 0.0)

  datatype Limits = Limits(minEngineConfidence: real, allowCapacityIncrease: bool)

  type Policy = l: Limits | 0.0 <= l.minEngineConfidence <= 1.0 witness Limits(0.8, true)

  datatype State = State(
    baseline: Option<StorageCapacity>,
    stableKey: Option<(int, int)>,
    stableConfidences: seq<real>,
    expectedDelta: Option<(int, int)>,
    manualRebaseAllowed: bool)

  const START: State := State(None, None, [], None, false)

  datatype Verdict = BelowFloor | CapacityFell | CapacityBarred | Unexplained
                   | Stable | Expected | Rebased | ClearedFull {
    predicate Accepts() {
      Stable? || Expected? || Rebased? || ClearedFull?
    }
  }

  // ---- One reading -------------------------------------------------------------------

  predicate DeltaIsExpected(delta: int, expected: Option<(int, int)>) {
    expected.Some? && expected.value.0 <= delta <= expected.value.1
  }

  function JudgeUsed(s: State, b: StorageCapacity, delta: int): Verdict {
    if delta == 0 then Stable
    else if DeltaIsExpected(delta, s.expectedDelta) then Expected
    else if s.manualRebaseAllowed && delta < 0 then Rebased
    else if b.capacity == b.used && delta < 0 then ClearedFull
    else Unexplained
  }

  function Judge(policy: Policy, s: State, raw: StorageCapacity): Verdict {
    if raw.confidence < policy.minEngineConfidence then BelowFloor
    else match s.baseline
      case None => Stable
      case Some(b) =>
        if raw.capacity < b.capacity then CapacityFell
        else if raw.capacity > b.capacity && !policy.allowCapacityIncrease then CapacityBarred
        else JudgeUsed(s, b, raw.used - b.used)
  }

  /** The product of the doubts `1 - c`. */
  function Doubt(confidences: seq<real>): real {
    if confidences == [] then 1.0
    else Doubt(confidences[..|confidences| - 1]) * (1.0 - confidences[|confidences| - 1])
  }

  function Key(raw: StorageCapacity): (int, int) {
    (raw.used, raw.capacity)
  }

  function Confidences(s: State, raw: StorageCapacity): seq<real> {
    if s.stableKey == Some(Key(raw)) then s.stableConfidences + [raw.confidence] else [raw.confidence]
  }

  function Min(a: real, b: real): real {
    if b < a then b else a
  }

  /** What the reader reports; a reading it does not accept carries no confidence. */
  function Report(policy: Policy, s: State, raw: Option<StorageCapacity>): Option<Reading> {
    match raw
    case None => None
    case Some(r) =>
      Some(r.(confidence := if Judge(policy, s, r).Accepts() then Min(1.0, 1.0 - Doubt(Confidences(s, r))) else 0.0))
  }

  function AfterRead(policy: Policy, s: State, raw: Option<StorageCapacity>): State {
    match raw
    case None => s
    case Some(r) =>
      var v := Judge(policy, s, r);
      if !v.Accepts() then s.(expectedDelta := None)
      else State(Some(r), Some(Key(r)), Confidences(s, r), None, s.manualRebaseAllowed && !v.Rebased?)
  }

  /** Why the last reading was taken as it was. */
  datatype Reason = NothingRead | NoValidReading | Judged(verdict: Verdict) | CapacityGrew

  datatype Diagnostics = Diagnostics(
    rawConfidence: Option<real>, confidence: Option<real>, stableFrames: nat, reason: Reason)

  /** The accepted reading shows the same use of a larger storage. */
  predicate Grew(s: State, r: StorageCapacity) {
    s.baseline.Some? && r.used == s.baseline.value.used && r.capacity > s.baseline.value.capacity
  }

  /** What is noted of a reading: only an accepted one counts as a stable frame. */
  function Note(policy: Policy, s: State, raw: Option<StorageCapacity>): Diagnostics {
    match raw
    case None => Diagnostics(None, None, 0, NoValidReading)
    case Some(r) =>
      var v := Judge(policy, s, r);
      Diagnostics(Some(r.confidence), Some(Report(policy, s, raw).value.confidence),
                  if v.Accepts() then |Confidences(s, r)| else 0,
                  if v.Accepts() && Grew(s, r) then CapacityGrew else Judged(v))
  }

  // ---- The reader --------------------------------------------------------------------

  class ValidatedStorageReader {
    const policy: Policy
    var baseline: Option<StorageCapacity>
    var stableKey: Option<(int, int)>
    var stableConfidences: seq<real>
    var expectedDelta: Option<(int, int)>
    var manualRebaseAllowed: bool
    var diagnostics: Diagnostics

    function Current(): State
      reads this
    {
      State(baseline, stableKey, stableConfidences, expectedDelta, manualRebaseAllowed)
    }

    constructor (policy: Policy)
      ensures this.policy == policy && Current() == START && diagnostics == Diagnostics(None, None, 0, NothingRead)
    {
      this.policy := policy;
      baseline, stableKey, stableConfidences, expectedDelta, manualRebaseAllowed := None, None, [], None, false;
      diagnostics := Diagnostics(None, None, 0, NothingRead);
    }

    /** Registers the next change to expect; an empty range is an error. */
    method ExpectDelta(minimum: int, maximum: int) returns (ok: bool)
      modifies this
      ensures ok == (minimum <= maximum)
      ensures Current() == After(policy, old(Current()), Expect(minimum, maximum))
    {
      ok := minimum <= maximum;
      if ok { expectedDelta := Some((minimum, maximum)); }
    }

    method ClearExpectation()
      modifies this
      ensures Current() == After(policy, old(Current()), Clear)
    {
      expectedDelta := None;
    }

    method AllowManualRebaseOnce()
      modifies this
      ensures Current() == After(policy, old(Current()), AllowRebase)
    {
      manualRebaseAllowed := true;
    }

    /** `raw` is what the wrapped reader saw. */
    method Read(raw: Option<StorageCapacity>) returns (report: Option<Reading>)
      modifies this
      ensures Current() == After(policy, old(Current()), Look(raw))
      ensures report == Report(policy, old(Current()), raw)
      ensures diagnostics == Note(policy, old(Current()), raw)
    {
      if raw.None? {
        diagnostics := Diagnostics(None, None, 0, NoValidReading);
        return None;
      }
      var r := raw.value;
      var expected := expectedDelta;
      expectedDelta := None;
      if r.confidence < policy.minEngineConfidence {
        report := Refuse(r, BelowFloor);
        return;
      }
      var reason := Judged(Stable);
      if baseline.Some? {
        var b := baseline.value;
        if r.capacity < b.capacity {
          report := Refuse(r, CapacityFell);
          return;
        }
        if r.capacity > b.capacity && !policy.allowCapacityIncrease {
          report := Refuse(r, CapacityBarred);
          return;
        }
        var delta := r.used - b.used;
        if delta != 0 {
          if DeltaIsExpected(delta, expected) {
            reason := Judged(Expected);
          } else if manualRebaseAllowed && delta < 0 {
            manualRebaseAllowed := false;
            reason := Judged(Rebased);
          } else if b.capacity == b.used && delta < 0 {
            reason := Judged(ClearedFull);
          } else {
            report := Refuse(r, Unexplained);
            return;
          }
        } else if r.capacity > b.capacity {
          reason := CapacityGrew;
        }
      }
      report := Admit(r, reason);
    }

    method Admit(r: StorageCapacity, reason: Reason) returns (report: Option<Reading>)
      modifies this
      ensures Current() == old(Current()).(baseline := Some(r), stableKey := Some(Key(r)),
                                           stableConfidences := Confidences(old(Current()), r))
      ensures report == Some(r.(confidence := Min(1.0, 1.0 - Doubt(Confidences(old(Current()), r)))))
      ensures diagnostics == Diagnostics(Some(r.confidence), Some(report.value.confidence),
                                         |Confidences(old(Current()), r)|, reason)
    {
      var confidence, frames := Accept(r);
      diagnostics := Diagnostics(Some(r.confidence), Some(confidence), frames, reason);
      return Some(r.(confidence := confidence));
    }

    method Refuse(r: StorageCapacity, verdict: Verdict) returns (report: Option<Reading>)
      modifies this`diagnostics
      ensures report == Some(r.(confidence := 0.0))
      ensures diagnostics == Diagnostics(Some(r.confidence), Some(0.0), 0, Judged(verdict))
    {
      diagnostics := Diagnostics(Some(r.confidence), Some(0.0), 0, Judged(verdict));
      return Some(r.(confidence := 0.0));
    }

    method Accept(raw: StorageCapacity) returns (confidence: real, frames: nat)
      modifies this
      ensures Current() == old(Current()).(baseline := Some(raw), stableKey := Some(Key(raw)),
                                           stableConfidences := Confidences(old(Current()), raw))
      ensures confidence == Min(1.0, 1.0 - Doubt(Confidences(old(Current()), raw)))
      ensures frames == |Confidences(old(Current()), raw)|
    {
      if stableKey != Some(Key(raw)) {
        stableKey := Some(Key(raw));
        stableConfidences := [raw.confidence];
      } else {
        stableConfidences := stableConfidences + [raw.confidence];
      }
      baseline := Some(raw);
      var doubt := 1.0;
      for i := 0 to |stableConfidences|
        invariant doubt == Doubt(stableConfidences[..i])
      {
        assert stableConfidences[..i + 1][..i] == stableConfidences[..i];
        doubt := doubt * (1.0 - stableConfidences[i]);
      }
      assert stableConfidences[..|stableConfidences|] == stableConfidences;
      confidence, frames := Min(1.0, 1.0 - doubt), |stableConfidences|;
    }
  }

  // ---- Runs --------------------------------------------------------------------------

  datatype Event = Expect(minimum: int, maximum: int) | Clear | AllowRebase | Look(raw: Option<StorageCapacity>)

  function After(policy: Policy, s: State, e: Event): State {
    match e
    case Expect(minimum, maximum) => if minimum <= maximum then s.(expectedDelta := Some((minimum, maximum))) else s
    case Clear => s.(expectedDelta := None)
    case AllowRebase => s.(manualRebaseAllowed := true)
    case Look(raw) => AfterRead(policy, s, raw)
  }

  /** The state after a run from the start. */
  function Run(policy: Policy, events: seq<Event>): State {
    if events == [] then START
    else After(policy, Run(policy, events[..|events| - 1]), events[|events| - 1])
  }

  lemma RunStep(policy: Policy, events: seq<Event>, i: nat)
    requires i < |events|
    ensures Run(policy, events[..i + 1]) == After(policy, Run(policy, events[..i]), events[i])
  {
    assert events[..i + 1][..i] == events[..i];
  }

  // ---- Capacity ----------------------------------------------------------------------

  /** Accepted capacity never falls and an accepted reading is never forgotten. */
  lemma {:induction false} CapacityNeverFalls(policy: Policy, events: seq<Event>, i: nat, j: nat)
    requires i <= j <= |events| && Run(policy, events[..i]).baseline.Some?
    ensures Run(policy, events[..j]).baseline.Some?
    ensures Run(policy, events[..i]).baseline.value.capacity <= Run(policy, events[..j]).baseline.value.capacity
    decreases j
  {
    if i < j {
      CapacityNeverFalls(policy, events, i, j - 1);
      RunStep(policy, events, j - 1);
    }
  }

  // ---- Used --------------------------------------------------------------------------

  /** How far event `i` raises the accepted `used`; the first reading raises nothing. */
  function Rise(policy: Policy, events: seq<Event>, i: nat): int
    requires i < |events|
  {
    var s := Run(policy, events[..i]);
    var t := After(policy, s, events[i]);
    if s.baseline.Some? && t.baseline.Some? then t.baseline.value.used - s.baseline.value.used else 0
  }

  /** The event settles what is expected next. */
  predicate Settles(e: Event) {
    (e.Expect? && e.minimum <= e.maximum) || e.Clear? || (e.Look? && e.raw.Some?)
  }

  /** Event `j` registered the expectation that event `i` meets, and nothing came between. */
  ghost predicate Backs(events: seq<Event>, i: nat, j: nat) {
    && j < i < |events| && events[j].Expect? && events[j].minimum <= events[j].maximum
    && (events[i].Look? && events[i].raw.Some?)
    && forall k {:trigger Settles(events[k])} :: j < k < i ==> !Settles(events[k])
  }

  /** What is expected was registered, and nothing has settled it since. */
  lemma {:induction false} ExpectedWasRegistered(policy: Policy, events: seq<Event>, i: nat) returns (j: nat)
    requires i <= |events| && Run(policy, events[..i]).expectedDelta.Some?
    ensures j < i
      && events[j] == Expect(Run(policy, events[..i]).expectedDelta.value.0,
      Run(policy, events[..i]).expectedDelta.value.1)
    ensures events[j].minimum <= events[j].maximum
    ensures forall k {:trigger Settles(events[k])} :: j < k < i ==> !Settles(events[k])
    decreases i
  {
    RunStep(policy, events, i - 1);
    if Settles(events[i - 1]) {
      j := i - 1;
    } else {
      j := ExpectedWasRegistered(policy, events, i - 1);
    }
  }

  /** Every rise was registered beforehand, within its bounds. */
  lemma RiseIsBacked(policy: Policy, events: seq<Event>, i: nat) returns (j: nat)
    requires i < |events| && Rise(policy, events, i) > 0
    ensures Backs(events, i, j)
    ensures events[j].minimum <= Rise(policy, events, i) <= events[j].maximum
  {
    RunStep(policy, events, i);
    j := ExpectedWasRegistered(policy, events, i);
  }

  /** No two readings use the same registration. */
  lemma BacksOnce(events: seq<Event>, i: nat, k: nat, j: nat)
    requires Backs(events, i, j) && Backs(events, k, j)
    ensures i == k
  {
    assert Settles(events[i]) && Settles(events[k]);
  }

  function Positive(n: int): nat {
    if n < 0 then 0 else n
  }

  function TotalRise(policy: Policy, events: seq<Event>, n: nat): nat
    requires n <= |events|
  {
    if n == 0 then 0 else TotalRise(policy, events, n - 1) + Positive(Rise(policy, events, n - 1))
  }

  /** The most that the registered expectations allow. */
  function Allowance(events: seq<Event>, n: nat): nat
    requires n <= |events|
  {
    if n == 0 then 0
    else
      var e := events[n - 1];
      Allowance(events, n - 1) + if e.Expect? && e.minimum <= e.maximum then Positive(e.maximum) else 0
  }

  function Open(s: State): nat {
    if s.expectedDelta.Some? then Positive(s.expectedDelta.value.1) else 0
  }

  /** What has risen and what may still rise stay within what was registered. */
  lemma {:induction false} RisesWithinAllowance(policy: Policy, events: seq<Event>, n: nat)
    requires n <= |events|
    ensures TotalRise(policy, events, n) + Open(Run(policy, events[..n])) <= Allowance(events, n)
  {
    if n > 0 {
      RisesWithinAllowance(policy, events, n - 1);
      RunStep(policy, events, n - 1);
    }
  }

  predicate Known(policy: Policy, events: seq<Event>, i: nat)
    requires i <= |events|
  {
    Run(policy, events[..i]).baseline.Some?
  }

  /** The accepted `used` after `i` events. */
  function Used(policy: Policy, events: seq<Event>, i: nat): int
    requires i <= |events| && Known(policy, events, i)
  {
    Run(policy, events[..i]).baseline.value.used
  }

  /** The accepted `used` less everything it has risen. */
  function Unraised(policy: Policy, events: seq<Event>, i: nat): int
    requires i <= |events| && Known(policy, events, i)
  {
    Used(policy, events, i) - TotalRise(policy, events, i)
  }

  /** One event raises the accepted `used` by no more than it adds to the rises. */
  lemma UsedStep(policy: Policy, events: seq<Event>, m: nat)
    requires m < |events| && Known(policy, events, m)
    ensures Known(policy, events, m + 1) && Unraised(policy, events, m + 1) <= Unraised(policy, events, m)
  {
    RiseOfUsed(policy, events, m);
    RiseCounts(policy, events, m);
  }

  lemma {:induction false} UnraisedFalls(policy: Policy, events: seq<Event>, i: nat, n: nat)
    requires i <= n <= |events| && Known(policy, events, i)
    ensures Known(policy, events, n) && Unraised(policy, events, n) <= Unraised(policy, events, i)
    decreases n
  {
    if i < n {
      UnraisedFalls(policy, events, i, n - 1);
      UsedStep(policy, events, n - 1);
    }
  }

  /** Accepted `used` never exceeds an earlier accepted value by more than was registered. */
  lemma UsedWithinAllowance(policy: Policy, events: seq<Event>, i: nat, n: nat)
    requires i <= n <= |events| && Known(policy, events, i)
    ensures Known(policy, events, n)
    ensures Used(policy, events, n)
            <= Used(policy, events, i) + TotalRise(policy, events, n) - TotalRise(policy, events, i)
  {
    UnraisedFalls(policy, events, i, n);
  }

  lemma RiseCounts(policy: Policy, events: seq<Event>, n: nat)
    requires n < |events|
    ensures TotalRise(policy, events, n + 1) >= TotalRise(policy, events, n) + Rise(policy, events, n)
  {
  }

  lemma RiseOfUsed(policy: Policy, events: seq<Event>, i: nat)
    requires i < |events| && Known(policy, events, i)
    ensures Known(policy, events, i + 1)
    ensures Used(policy, events, i + 1) == Used(policy, events, i) + Rise(policy, events, i)
  {
    RunStep(policy, events, i);
  }

  // ---- Falls -------------------------------------------------------------------------

  function Rebases(policy: Policy, events: seq<Event>, n: nat): nat
    requires n <= |events|
  {
    if n == 0 then 0
    else
      var s, e := Run(policy, events[..n - 1]), events[n - 1];
      Rebases(policy, events, n - 1) + if e.Look? && e.raw.Some? && Judge(policy, s, e.raw.value).Rebased? then 1 else 0
  }

  function Permissions(events: seq<Event>, n: nat): nat
    requires n <= |events|
  {
    if n == 0 then 0 else Permissions(events, n - 1) + if events[n - 1].AllowRebase? then 1 else 0
  }

  /** A manual rebase is used at most as often as it was allowed. */
  lemma {:induction false} RebasesArePermitted(policy: Policy, events: seq<Event>, n: nat)
    requires n <= |events|
    ensures Rebases(policy, events, n) + (if Run(policy, events[..n]).manualRebaseAllowed then 1 else 0)
            <= Permissions(events, n)
  {
    if n > 0 {
      RebasesArePermitted(policy, events, n - 1);
      RunStep(policy, events, n - 1);
    }
  }

  // ---- Confidence --------------------------------------------------------------------

  function Power(x: real, n: nat): real {
    if n == 0 then 1.0 else Power(x, n - 1) * x
  }

  lemma Below(a: real, x: real)
    requires 0.0 <= a <= 1.0 && 0.0 <= x
    ensures 0.0 <= a * x <= x
  {
  }

  /** A product of fractions is at most either of them. */
  lemma Shrunk(a: real, x: real) returns (p: real)
    requires 0.0 <= a <= 1.0 && 0.0 <= x <= 1.0
    ensures p == a * x && 0.0 <= p <= x && p <= a
  {
    Below(a, x);
    Below(x, a);
    p := a * x;
    assert x * a == p;
  }

  lemma ProductGrows(a: real, b: real, x: real, y: real)
    requires 0.0 <= a <= b && 0.0 <= x <= y
    ensures a * x <= b * y
  {
    calc { a * x; <= b * x; <= b * y; }
  }

  /** `n` confidences above the floor leave at most the `n`-th power of its doubt. */
  lemma {:induction false} DoubtShrinks(floor: real, cs: seq<real>)
    requires 0.0 <= floor <= 1.0 && forall c :: c in cs ==> floor <= c <= 1.0
    ensures 0.0 <= Doubt(cs) <= Power(1.0 - floor, |cs|) <= 1.0
  {
    if cs != [] {
      var n := |cs| - 1;
      assert forall c :: c in cs[..n] ==> c in cs;
      DoubtShrinks(floor, cs[..n]);
      assert cs[n] in cs;
      var p := Shrunk(Doubt(cs[..n]), 1.0 - cs[n]);
      var q := Shrunk(Power(1.0 - floor, n), 1.0 - floor);
      ProductGrows(Doubt(cs[..n]), Power(1.0 - floor, n), 1.0 - cs[n], 1.0 - floor);
    }
  }

  /** The fused confidences are those of the accepted readings that repeat the baseline. */
  ghost predicate Fused(policy: Policy, s: State) {
    match s.baseline
    case None => s.stableKey.None?
    case Some(b) =>
      && s.stableKey == Some(Key(b)) && s.stableConfidences != []
      && forall c :: c in s.stableConfidences ==> policy.minEngineConfidence <= c <= 1.0
  }

  lemma FusedKept(policy: Policy, s: State, e: Event)
    requires Fused(policy, s)
    ensures Fused(policy, After(policy, s, e))
  {
  }

  lemma {:induction false} RunIsFused(policy: Policy, events: seq<Event>)
    ensures Fused(policy, Run(policy, events))
  {
    if events != [] {
      RunIsFused(policy, events[..|events| - 1]);
      FusedKept(policy, Run(policy, events[..|events| - 1]), events[|events| - 1]);
    }
  }

  /** Reading the same value again is accepted. */
  lemma RepeatIsAccepted(policy: Policy, s: State, raw: StorageCapacity)
    requires Fused(policy, s) && s.stableKey == Some(Key(raw)) && policy.minEngineConfidence <= raw.confidence
    ensures Judge(policy, s, raw) == Stable
    ensures AfterRead(policy, s, Some(raw)).stableConfidences == s.stableConfidences + [raw.confidence]
  {
  }

  /** What an accepted reading reports grows with every repetition. */
  lemma RepeatRaisesConfidence(policy: Policy, s: State, raw: StorageCapacity)
    requires Fused(policy, s) && s.stableKey == Some(Key(raw)) && policy.minEngineConfidence <= raw.confidence
    ensures Report(policy, s, Some(raw)).value.confidence >= 1.0 - Doubt(s.stableConfidences)
    ensures Report(policy, s, Some(raw)).value.confidence >= raw.confidence
  {
    RepeatIsAccepted(policy, s, raw);
    var cs := s.stableConfidences;
    DoubtShrinks(policy.minEngineConfidence, cs);
    DoubtPush(cs, raw.confidence);
    var p := Shrunk(Doubt(cs), 1.0 - raw.confidence);
    assert Doubt(cs + [raw.confidence]) == p;
    AcceptedReport(policy, s, raw);
  }

  lemma DoubtPush(cs: seq<real>, c: real)
    ensures Doubt(cs + [c]) == Doubt(cs) * (1.0 - c)
  {
    assert (cs + [c])[..|cs|] == cs;
  }

  function Looks(raws: seq<StorageCapacity>): seq<Event> {
    seq(|raws|, i requires 0 <= i < |raws| => Look(Some(raws[i])))
  }

  /** All readings show the same value, surely enough. */
  ghost predicate Alike(policy: Policy, raws: seq<StorageCapacity>, key: (int, int)) {
    forall k {:trigger raws[k]} ::
      0 <= k < |raws| ==> Key(raws[k]) == key && policy.minEngineConfidence <= raws[k].confidence
  }

  lemma RunLooks(policy: Policy, events: seq<Event>, raws: seq<StorageCapacity>)
    requires raws != []
    ensures Run(policy, events + Looks(raws))
            == AfterRead(policy, Run(policy, events + Looks(raws[..|raws| - 1])), Some(raws[|raws| - 1]))
  {
    var all := events + Looks(raws);
    assert all[..|all| - 1] == events + Looks(raws[..|raws| - 1]);
  }

  /** From an accepted first reading on, every repetition is fused with those before. */
  lemma {:induction false} RepeatsAreFused(policy: Policy, events: seq<Event>, raws: seq<StorageCapacity>,
                                           key: (int, int))
    requires raws != [] && Alike(policy, raws, key) && Judge(policy, Run(policy, events), raws[0]).Accepts()
    ensures Run(policy, events + Looks(raws)).stableKey == Some(key)
    ensures |Run(policy, events + Looks(raws)).stableConfidences| >= |raws|
    decreases |raws|
  {
    var n := |raws| - 1;
    RunLooks(policy, events, raws);
    if n == 0 {
      assert events + Looks(raws[..0]) == events;
    } else {
      RepeatsAreFused(policy, events, raws[..n], key);
      RunIsFused(policy, events + Looks(raws[..n]));
      RepeatIsAccepted(policy, Run(policy, events + Looks(raws[..n])), raws[n]);
    }
  }

  lemma {:induction false} PowerFalls(x: real, n: nat, m: nat)
    requires 0.0 <= x <= 1.0 && n <= m
    ensures 0.0 <= Power(x, m) <= Power(x, n) <= 1.0
    decreases m
  {
    if m > n {
      PowerFalls(x, n, m - 1);
      var p := Shrunk(Power(x, m - 1), x);
      assert Power(x, m) == p;
    } else if n > 0 {
      PowerFalls(x, n - 1, n - 1);
      var p := Shrunk(Power(x, n - 1), x);
      assert Power(x, n) == p;
    }
  }

  lemma AcceptedReport(policy: Policy, s: State, raw: StorageCapacity)
    requires Judge(policy, s, raw).Accepts()
    ensures Report(policy, s, Some(raw)).value.confidence
      == Min(1.0, 1.0 - Doubt(AfterRead(policy, s, Some(raw)).stableConfidences))
  {
  }

  /** The last of `n` identical accepted readings is reported at least `1 - (1 - floor)^n` sure. */
  lemma RepeatsGiveConfidence(policy: Policy, events: seq<Event>, raws: seq<StorageCapacity>, key: (int, int))
    requires raws != [] && Alike(policy, raws, key) && Judge(policy, Run(policy, events), raws[0]).Accepts()
    ensures var last := |raws| - 1;
            Report(policy, Run(policy, events + Looks(raws[..last])), Some(raws[last])).value.confidence
            >= 1.0 - Power(1.0 - policy.minEngineConfidence, |raws|)
  {
    var last := |raws| - 1;
    LastIsAccepted(policy, events, raws, key);
    AcceptedReport(policy, Run(policy, events + Looks(raws[..last])), raws[last]);
    RunLooks(policy, events, raws);
    RepeatsAreFused(policy, events, raws, key);
    RunIsFused(policy, events + Looks(raws));
    var cs := Run(policy, events + Looks(raws)).stableConfidences;
    DoubtShrinks(policy.minEngineConfidence, cs);
    PowerFalls(1.0 - policy.minEngineConfidence, |raws|, |cs|);
  }

  /** The last of `n` identical accepted readings is noted as at least the `n`-th stable frame. */
  lemma RepeatsAreCounted(policy: Policy, events: seq<Event>, raws: seq<StorageCapacity>, key: (int, int))
    requires raws != [] && Alike(policy, raws, key) && Judge(policy, Run(policy, events), raws[0]).Accepts()
    ensures var last := |raws| - 1;
            Note(policy, Run(policy, events + Looks(raws[..last])), Some(raws[last])).stableFrames >= |raws|
  {
    LastIsAccepted(policy, events, raws, key);
    RunLooks(policy, events, raws);
    RepeatsAreFused(policy, events, raws, key);
  }

  lemma LastIsAccepted(policy: Policy, events: seq<Event>, raws: seq<StorageCapacity>, key: (int, int))
    requires raws != [] && Alike(policy, raws, key) && Judge(policy, Run(policy, events), raws[0]).Accepts()
    ensures Judge(policy, Run(policy, events + Looks(raws[..|raws| - 1])), raws[|raws| - 1]).Accepts()
  {
    var n := |raws| - 1;
    if n == 0 {
      assert events + Looks(raws[..0]) == events;
    } else {
      RepeatsAreFused(policy, events, raws[..n], key);
      RunIsFused(policy, events + Looks(raws[..n]));
      RepeatIsAccepted(policy, Run(policy, events + Looks(raws[..n])), raws[n]);
    }
  }

  // ---- One reading told from its numbers ---------------------------------------------

  /** A reading is one whose used and free space are not negative, of some capacity, with a share as confidence. */
  lemma ReadingsAreExactly(r: Reading)
    ensures r.Valid() <==>
      && r.used >= 0 && r.capacity - r.used >= 0 && r.capacity >= 1 && r.confidence >= 0.0 && 1.0 - r.confidence >= 0.0
  {
  }

  /** The registered range holds the change, its ends included. */
  ghost predicate InRegisteredRange(expected: Option<(int, int)>, change: int) {
    exists lo, hi :: expected == Some((lo, hi)) && !(change < lo) && !(hi < change)
  }

  /** Why the used amount may change: it did not, it was registered, permitted, or cleared from a full storage. */
  ghost predicate ChangeExplained(s: State, before: Reading, now: Reading) {
    || now.used == before.used
    || InRegisteredRange(s.expectedDelta, now.used - before.used)
    || (now.used < before.used && (s.manualRebaseAllowed || before.used == before.capacity))
  }

  /** A reading to trust: sure enough, of a capacity that may be so, and with an explained change. */
  ghost predicate Trusted(policy: Policy, s: State, now: Reading) {
    && now.confidence >= policy.minEngineConfidence
    && (s.baseline.Some? ==>
          && now.capacity >= s.baseline.value.capacity
          && (now.capacity == s.baseline.value.capacity || policy.allowCapacityIncrease)
          && ChangeExplained(s, s.baseline.value, now))
  }

  /** For every reading: accepted exactly when it is to be trusted, and the one-shot permission is the last resort. */
  lemma TrustedExactly(policy: Policy, s: State, used: nat, free: nat, confidence: real)
    requires used + free > 0 && 0.0 <= confidence <= 1.0
    ensures var now := Reading(used, used + free, confidence);
      && (Judge(policy, s, now).Accepts() <==> Trusted(policy, s, now))
      && (Judge(policy, s, now) == Rebased <==>
            && Trusted(policy, s, now) && s.baseline.Some? && s.manualRebaseAllowed
            && used < s.baseline.value.used && !InRegisteredRange(s.expectedDelta, used - s.baseline.value.used))
  {
    if s.baseline.Some? { RangeExactly(s.expectedDelta, used - s.baseline.value.used); }
  }

  lemma RangeExactly(expected: Option<(int, int)>, change: int)
    ensures DeltaIsExpected(change, expected) <==> InRegisteredRange(expected, change)
  {
    match expected
    case None =>
    case Some(range) => assert expected == Some((range.0, range.1));
  }

  /** The accepted readings of this very value, this one included, as far back as the last other one. */
  ghost function FusedWith(s: State, now: Reading): seq<real> {
    if s.baseline.Some? && s.baseline.value.used == now.used && s.baseline.value.capacity == now.capacity
    then s.stableConfidences + [now.confidence] else [now.confidence]
  }

  /**
   What any reading of any run reports: what was read, and as confidence one minus the
   product of the doubts of all the readings it repeats, or none when it is not trusted.
   */
  lemma ReportedExactly(policy: Policy, events: seq<Event>, now: StorageCapacity)
    ensures var s := Run(policy, events);
      Report(policy, s, Some(now)) ==
        Some(Reading(now.used, now.capacity, if Trusted(policy, s, now) then 1.0 - Doubt(FusedWith(s, now)) else 0.0))
  {
    var s := Run(policy, events);
    RunIsFused(policy, events);
    TrustedExactly(policy, s, now.used, now.capacity - now.used, now.confidence);
    if Trusted(policy, s, now) {
      assert FusedWith(s, now) == Confidences(s, now);
      assert forall c :: c in Confidences(s, now) ==> policy.minEngineConfidence <= c <= 1.0;
      DoubtShrinks(policy.minEngineConfidence, Confidences(s, now));
    }
  }

  /** An accepted reading is the new baseline; whatever is read, the registered range is used up. */
  lemma StateAfterExactly(policy: Policy, events: seq<Event>, now: StorageCapacity)
    ensures var s, t := Run(policy, events), Run(policy, events + [Look(Some(now))]);
      && t.expectedDelta == None
      && (Trusted(policy, s, now) ==> t.baseline == Some(now) && t.stableConfidences == FusedWith(s, now))
      && (!Trusted(policy, s, now) ==> t == s.(expectedDelta := None))
      && (t.manualRebaseAllowed <==>
            && s.manualRebaseAllowed
            && (Trusted(policy, s, now) && s.baseline.Some? && now.used < s.baseline.value.used ==>
                  InRegisteredRange(s.expectedDelta, now.used - s.baseline.value.used)))
  {
    RunIsFused(policy, events);
    var s := Run(policy, events);
    assert (events + [Look(Some(now))])[..|events|] == events;
    TrustedExactly(policy, s, now.used, now.capacity - now.used, now.confidence);
  }
}
