/** Executing a construction plan one verified physical step at a time. */
module Execution {
  import opened Wrappers
  import opened CityMap
  import opened Identity
  import opened Construction

  datatype Status = Complete | BlockedUnresolved | PreconditionFailed | ActionFailed | VerificationFailed | Stopped

  datatype StepRecord = StepRecord(step: Step, before: City, after: City)

  datatype Report = Report(status: Status, currentMap: City, completed: seq<StepRecord>, failedStep: Option<Step>)

  /**
   The outside world as the executor meets it: the action adapter, the scanner and the
   stop signal. `None` and `false` stand for a scan or an action that raises. What each
   call answers is arbitrary; the fields record what was asked for.
   */
  class LiveGame {
    const actionSucceeds: nat -> bool
    const scanResult: nat -> Option<City>
    const stopRequested: nat -> bool
    var issued: seq<Step>
    var scans: nat
    var polls: nat

    constructor (actionSucceeds: nat -> bool, scanResult: nat -> Option<City>, stopRequested: nat -> bool)
      ensures this.actionSucceeds == actionSucceeds && this.scanResult == scanResult
        && this.stopRequested == stopRequested
      ensures issued == [] && scans == 0 && polls == 0
    {
      this.actionSucceeds, this.scanResult, this.stopRequested := actionSucceeds, scanResult, stopRequested;
      issued, scans, polls := [], 0, 0;
    }

    method Execute(step: Step) returns (ok: bool)
      modifies this`issued
      ensures issued == old(issued) + [step] && ok == actionSucceeds(|old(issued)|)
    {
      ok := actionSucceeds(|issued|);
      issued := issued + [step];
    }

    method Scan() returns (r: Option<City>)
      modifies this`scans
      ensures scans == old(scans) + 1 && r == scanResult(old(scans))
    {
      r := scanResult(scans);
      scans := scans + 1;
    }

    method StopRequested() returns (stop: bool)
      modifies this`polls
      ensures polls == old(polls) + 1 && stop == stopRequested(old(polls))
    {
      stop := stopRequested(polls);
      polls := polls + 1;
    }
  }

  /** Scanned maps, like all maps, passed the constructor's checks. */
  ghost predicate ScansLegal(scanResult: nat -> Option<City>) {
    forall k :: scanResult(k).Some? ==> scanResult(k).value.Valid()
  }

  /** The scan shows `world` in some order and under some tags. */
  ghost predicate Shows(scan: Option<City>, world: City) {
    && scan.Some?
    && scan.value.width == world.width && scan.value.height == world.height
    && scan.value.roads == world.roads && scan.value.blocked == world.blocked
    && Sightings(scan.value.buildings) == Sightings(world.buildings)
  }

  /** Every scanned building is alike to one of the map's. */
  ghost predicate AllFamiliar(scan: City, world: City) {
    forall k {:trigger scan.buildings[k]} :: 0 <= k < |scan.buildings| ==> Familiar(world.buildings, scan.buildings[k])
  }

  ghost predicate Familiar(bs: seq<Building>, b: Building) {
    exists i {:trigger bs[i]} :: 0 <= i < |bs| && Alike(b, bs[i])
  }

  lemma UnmovedSeenBefore(bs: seq<Building>, b: Building)
    ensures SeenBefore(bs, b, map[]) <==> Familiar(bs, b)
  {
    if SeenBefore(bs, b, map[]) {
      var i :| 0 <= i < |bs| && Alike(b, Meant(bs[i], map[]));
      assert Alike(b, bs[i]);
    }
    if i :| 0 <= i < |bs| && Alike(b, bs[i]) { assert Alike(b, Meant(bs[i], map[])); }
  }

  lemma FamiliarIsRecognised(scan: City, world: City)
    ensures AllFamiliar(scan, world) <==>
      forall k {:trigger scan.buildings[k]} :: 0 <= k < |scan.buildings| ==>
        SeenBefore(world.buildings, scan.buildings[k], map[])
  {
    forall k | 0 <= k < |scan.buildings|
      ensures SeenBefore(world.buildings, scan.buildings[k], map[]) <==> Familiar(world.buildings, scan.buildings[k])
    {
      UnmovedSeenBefore(world.buildings, scan.buildings[k]);
    }
  }

  /** A scan shows a map exactly when the terrain agrees, and every building, told from cells, fields and prefixes. */
  lemma ShownExactly(scan: City, world: City)
    requires scan.Valid()
    ensures Shows(Some(scan), world) <==>
      && scan.width == world.width && scan.height == world.height
      && scan.roads == world.roads && scan.blocked == world.blocked && |scan.buildings| == |world.buildings|
      && AllFamiliar(scan, world)
  {
    MatchesExactly(world, scan, map[]);
    NoMovesExpected(world);
    FamiliarIsRecognised(scan, world);
    if Shows(Some(scan), world) { SameSightingsSameCount(scan.buildings, world.buildings); }
  }

  function ExpectedMoves(step: Step): map<string, Point>
    requires step.kind == MoveBuilding ==> step.building.Some? && step.destination.Some?
  {
    if step.kind != MoveBuilding then map[] else map[step.building.value := step.destination.value]
  }

  lemma ApplicableHasFields(current: City, step: Step)
    requires ApplyExpected(current, step).Success?
    ensures step.kind == MoveBuilding ==> step.building.Some? && step.destination.Some?
  {
  }

  /** Reconciling with the step's declared move yields the expected map, terrain apart. */
  lemma ExpectedBuildings(current: City, step: Step)
    requires ApplyExpected(current, step).Success?
    ensures step.kind == MoveBuilding ==> step.building.Some? && step.destination.Some?
    ensures ExpectedMoves(step).Keys <= Ids(current.buildings)
    ensures Expected(current.buildings, ExpectedMoves(step)) == ApplyExpected(current, step).value.buildings
  {
    if step.kind == MoveBuilding {
      var i := IndexOf(current.buildings, step.building.value).value;
      assert current.buildings[i].spec.id == step.building.value;
    }
  }

  lemma SameSightingsSameCount(a: seq<Building>, b: seq<Building>)
    requires Sightings(a) == Sightings(b)
    ensures |a| == |b|
  {
    assert |multiset(Sights(a))| == |a| && |multiset(Sights(b))| == |b|;
  }

  /** The fresh scan passes verification exactly when it shows the expected map. */
  lemma VerifiedIffShown(current: City, step: Step, scan: City)
    requires ApplyExpected(current, step).Success?
    requires step.kind == MoveBuilding ==> step.building.Some? && step.destination.Some?
    ensures var expected := ApplyExpected(current, step).value;
      var moves := ExpectedMoves(step);
      Shows(Some(scan), expected) <==>
        Matches(current, scan, moves) && scan.(buildings := Expected(current.buildings, moves)) == expected
  {
    ExpectedBuildings(current, step);
    if Shows(Some(scan), ApplyExpected(current, step).value) {
      SameSightingsSameCount(scan.buildings, ApplyExpected(current, step).value.buildings);
    }
  }

  lemma NoMovesExpected(c: City)
    ensures Expected(c.buildings, map[]) == c.buildings
  {
  }

  lemma BaselineIffShown(baseline: City, scan: City)
    ensures Shows(Some(scan), baseline) <==>
      Matches(baseline, scan, map[]) && scan.(buildings := Expected(baseline.buildings, map[])) == baseline
  {
    NoMovesExpected(baseline);
    if Shows(Some(scan), baseline) { SameSightingsSameCount(scan.buildings, baseline.buildings); }
  }

  // ---- What a run must look like -----------------------------------------------------

  /** Completed records follow the plan, each from the map the one before it left. */
  ghost predicate Chain(baseline: City, steps: seq<Step>, completed: seq<StepRecord>) {
    |completed| <= |steps| && forall k {:trigger Link(baseline, steps, completed, k)} ::
      0 <= k < |completed| ==> Link(baseline, steps, completed, k)
  }

  ghost predicate Link(baseline: City, steps: seq<Step>, completed: seq<StepRecord>, k: int)
    requires 0 <= k < |completed| <= |steps|
  {
    && completed[k].step == steps[k]
    && completed[k].before == (if k == 0 then baseline else completed[k - 1].after)
    && ApplyExpected(completed[k].before, steps[k]) == Success(completed[k].after)
  }

  function LastMap(baseline: City, completed: seq<StepRecord>): City {
    if completed == [] then baseline else completed[|completed| - 1].after
  }

  /** A chain of records is a replay of as many steps. */
  lemma {:induction false} ChainIsReplay(baseline: City, steps: seq<Step>, completed: seq<StepRecord>)
    requires Chain(baseline, steps, completed)
    ensures Replay(baseline, steps[..|completed|]) == Success(LastMap(baseline, completed))
    decreases |completed|
  {
    if completed != [] {
      var n := |completed| - 1;
      var front := completed[..n];
      forall k | 0 <= k < n ensures Link(baseline, steps, front, k) {
        assert completed[k] == front[k];
        assert Link(baseline, steps, completed, k);
      }
      ChainIsReplay(baseline, steps, front);
      assert Link(baseline, steps, completed, n);
      ReplayNext(baseline, steps, n);
    }
  }

  lemma ChainPush(baseline: City, steps: seq<Step>, completed: seq<StepRecord>, after: City)
    requires Chain(baseline, steps, completed) && |completed| < |steps|
    requires ApplyExpected(LastMap(baseline, completed), steps[|completed|]) == Success(after)
    ensures Chain(baseline, steps,
      completed + [StepRecord(steps[|completed|], LastMap(baseline, completed), after)])
  {
    var now := completed + [StepRecord(steps[|completed|], LastMap(baseline, completed), after)];
    forall k | 0 <= k < |now| ensures Link(baseline, steps, now, k) {
      if k < |completed| {
        assert completed[k] == now[k];
        assert Link(baseline, steps, completed, k);
      }
    }
  }

  /** The world goes along with step `k`: no stop, and the action and its scan work out. */
  ghost predicate Follows(game: LiveGame, acted: nat, scanned: nat, polled: nat, baseline: City, steps: seq<Step>,
                          k: int)
    requires 0 <= k < |steps|
  {
    && !game.stopRequested(polled + 2 * k)
    && DependsOnEarlier(steps, k)
    && Replay(baseline, steps[..k + 1]).Success?
    && game.actionSucceeds(acted + k)
    && Shows(game.scanResult(scanned + k + 1), Replay(baseline, steps[..k + 1]).value)
    && !game.stopRequested(polled + 2 * k + 1)
  }

  ghost predicate FollowsAll(game: LiveGame, acted: nat, scanned: nat, polled: nat, baseline: City, steps: seq<Step>,
                             n: int)
    requires 0 <= n <= |steps|
  {
    && Shows(game.scanResult(scanned), baseline)
    && forall k {:trigger Follows(game, acted, scanned, polled, baseline, steps, k)} :: 0 <= k < n ==>
         Follows(game, acted, scanned, polled, baseline, steps, k)
  }

  // ---- The executor ------------------------------------------------------------------

  datatype StepOutcome = Done(observed: City) | Failed(status: Status, shown: City)

  /** What a scan is reported as: reconciled where that works, else the map before. */
  ghost function SeenAs(scan: Option<City>, current: City, step: Step): City
    requires ApplyExpected(current, step).Success?
  {
    var moves := ExpectedMoves(step);
    if scan.Some? && Matches(current, scan.value, moves)
      then scan.value.(buildings := Expected(current.buildings, moves))
    else current
  }

  /** One step: check, act, rescan, reconcile, compare with the only map allowed. */
  method ExecuteStep(game: LiveGame, current: City, step: Step) returns (r: StepOutcome)
    requires current.Valid() && ScansLegal(game.scanResult)
    modifies game`issued, game`scans
    ensures var acted, scanned := |old(game.issued)|, old(game.scans);
      var expected := ApplyExpected(current, step);
      if expected.Failure? then
        r == Failed(PreconditionFailed, current) && game.issued == old(game.issued) && game.scans == scanned
      else
        && game.issued == old(game.issued) + [step]
        && if !game.actionSucceeds(acted) then r == Failed(ActionFailed, current) && game.scans == scanned
           else
             && game.scans == scanned + 1
             && if Shows(game.scanResult(scanned), expected.value) then r == Done(expected.value)
                else r == Failed(VerificationFailed, SeenAs(game.scanResult(scanned), current, step))
    ensures game.issued == if Refused(current, step) then old(game.issued) else old(game.issued) + [step]
    ensures r == Failed(PreconditionFailed, current) <==> Refused(current, step)
  {
    RefusedExactly(current, step);
    var expected := ApplyExpected(current, step);
    if expected.Failure? { return Failed(PreconditionFailed, current); }
    ApplicableHasFields(current, step);
    var ok := game.Execute(step);
    if !ok { return Failed(ActionFailed, current); }
    r := Verify(game, current, step, expected.value);
  }

  method Verify(game: LiveGame, current: City, step: Step, ghost expected: City) returns (r: StepOutcome)
    requires current.Valid() && ScansLegal(game.scanResult)
    requires ApplyExpected(current, step) == Success(expected)
    requires step.kind == MoveBuilding ==> step.building.Some? && step.destination.Some?
    modifies game`scans
    ensures game.scans == old(game.scans) + 1
    ensures if Shows(game.scanResult(old(game.scans)), expected) then r == Done(expected)
            else r == Failed(VerificationFailed, SeenAs(game.scanResult(old(game.scans)), current, step))
  {
    var scan := game.Scan();
    var target := ApplyExpected(current, step).value;
    if scan.None? { return Failed(VerificationFailed, current); }
    VerifiedIffShown(current, step, scan.value);
    var reconciled := Reconcile(current, scan.value, ExpectedMoves(step));
    if reconciled.Failure? { return Failed(VerificationFailed, current); }
    if reconciled.value.city != target { return Failed(VerificationFailed, reconciled.value.city); }
    return Done(target);
  }

  /** Ids of the first `n` steps. */
  ghost predicate IdsUpTo(steps: seq<Step>, n: nat, done: set<StepId>)
    requires n <= |steps|
  {
    forall d :: d in done <==> exists j :: 0 <= j < n && steps[j].id == d
  }

  lemma IdsUpToNext(steps: seq<Step>, n: nat, done: set<StepId>)
    requires n < |steps| && IdsUpTo(steps, n, done)
    ensures IdsUpTo(steps, n + 1, done + {steps[n].id})
    ensures DependsOnEarlier(steps, n) <==> forall d :: d in steps[n].dependsOn ==> d in done
  {
    forall d ensures d in done + {steps[n].id} <==> exists j :: 0 <= j < n + 1 && steps[j].id == d {
      if d in done {
        var j :| 0 <= j < n && steps[j].id == d;
      }
    }
  }

  /** Where a run stands after some verified steps; `before` was issued earlier. */
  ghost predicate Reached(game: LiveGame, before: seq<Step>, scanned: nat, polled: nat,
                          baseline: City, steps: seq<Step>, completed: seq<StepRecord>, current: City)
    reads game
  {
    && Chain(baseline, steps, completed) && current == LastMap(baseline, completed) && current.Valid()
    && game.issued == before + steps[..|completed|]
    && game.scans == scanned + |completed| + 1 && game.polls == polled + 2 * |completed|
  }

  /** The part of a turn between the two polls, on the map expected after it. */
  ghost predicate Achieved(game: LiveGame, acted: nat, scanned: nat, expected: Result<City, StepError>) {
    expected.Success? && game.actionSucceeds(acted) && Shows(game.scanResult(scanned), expected.value)
  }

  ghost predicate StepWorks(game: LiveGame, acted: nat, scanned: nat, current: City, step: Step) {
    Achieved(game, acted, scanned, ApplyExpected(current, step))
  }

  lemma NextExpected(baseline: City, steps: seq<Step>, completed: seq<StepRecord>)
    requires Chain(baseline, steps, completed) && |completed| < |steps|
    ensures ApplyExpected(LastMap(baseline, completed), steps[|completed|])
      == Replay(baseline, steps[..|completed| + 1])
  {
    ChainIsReplay(baseline, steps, completed);
    ReplayNext(baseline, steps, |completed|);
  }

  /** Whether the world follows a step, told from the map the chain has reached. */
  lemma FollowsHere(game: LiveGame, acted: nat, scanned: nat, polled: nat,
                    baseline: City, steps: seq<Step>, completed: seq<StepRecord>)
    requires Chain(baseline, steps, completed) && |completed| < |steps|
    ensures var n := |completed|;
      Follows(game, acted, scanned, polled, baseline, steps, n) <==>
        && !game.stopRequested(polled + 2 * n) && DependsOnEarlier(steps, n)
        && StepWorks(game, acted + n, scanned + n + 1, LastMap(baseline, completed), steps[n])
        && !game.stopRequested(polled + 2 * n + 1)
  {
    NextExpected(baseline, steps, completed);
  }

  datatype TurnResult = Ends(report: Report) | Continues(completed: seq<StepRecord>, current: City)

  /** The report of a run that ends at step `n` with these records. */
  ghost predicate EndsWith(issued: seq<Step>, before: seq<Step>, steps: seq<Step>, acted: nat,
                           status: Status, shown: City, failed: Option<Step>, report: Report)
    requires acted <= |steps|
  {
    issued == before + steps[..acted] && report == Report(status, shown, report.completed, failed)
  }

  /** Step `n` itself fails: its precondition before acting, the action, or the scan after it. */
  ghost predicate FailsAt(game: LiveGame, issued: seq<Step>, before: seq<Step>, scanned: nat,
                          current: City, steps: seq<Step>, n: nat, report: Report)
    requires n < |steps|
  {
    var expected := ApplyExpected(current, steps[n]);
    if expected.Failure? then EndsWith(issued, before, steps, n, PreconditionFailed, current, Some(steps[n]), report)
    else if !game.actionSucceeds(|before| + n) then
      EndsWith(issued, before, steps, n + 1, ActionFailed, current, Some(steps[n]), report)
    else
      EndsWith(issued, before, steps, n + 1, VerificationFailed,
               SeenAs(game.scanResult(scanned + n + 1), current, steps[n]), Some(steps[n]), report)
  }

  /**
   How a run closes when step `n` is the first the world does not follow. Its records chain
   up to there; only a failed action or a failed verification leaves one issued step beyond
   them; and a stop asked for after the step was verified counts it as completed.
   */
  ghost predicate ClosesAt(game: LiveGame, issued: seq<Step>, before: seq<Step>, scanned: nat, polled: nat,
                           baseline: City, steps: seq<Step>, n: nat, report: Report)
    requires n < |steps|
  {
    && Chain(baseline, steps, report.completed)
    && var last := LastMap(baseline, report.completed);
       if game.stopRequested(polled + 2 * n) then
         |report.completed| == n && EndsWith(issued, before, steps, n, Stopped, last, Some(steps[n]), report)
       else if !DependsOnEarlier(steps, n) then
         |report.completed| == n && EndsWith(issued, before, steps, n, PreconditionFailed, last, Some(steps[n]), report)
       else if |report.completed| == n then
         && !StepWorks(game, |before| + n, scanned + n + 1, last, steps[n])
         && FailsAt(game, issued, before, scanned, last, steps, n, report)
       else
         && |report.completed| == n + 1 && game.stopRequested(polled + 2 * n + 1)
         && EndsWith(issued, before, steps, n + 1, Stopped, last, None, report)
  }

  method RunStep(game: LiveGame, ghost before: seq<Step>, ghost scanned: nat,
                 ghost baseline: City, steps: seq<Step>, completed: seq<StepRecord>, current: City)
    returns (r: TurnResult)
    requires ScansLegal(game.scanResult) && |completed| < |steps| && current.Valid()
    requires Chain(baseline, steps, completed) && current == LastMap(baseline, completed)
    requires game.issued == before + steps[..|completed|] && game.scans == scanned + |completed| + 1
    modifies game`issued, game`scans
    ensures r.Ends? <==>
      !StepWorks(game, |before| + |completed|, scanned + |completed| + 1, current, steps[|completed|])
    ensures r.Ends? ==> r.report.completed == completed
                        && FailsAt(game, game.issued, before, scanned, current, steps, |completed|, r.report)
    ensures r.Continues? ==>
      && r.completed == completed + [StepRecord(steps[|completed|], current, r.current)]
      && Chain(baseline, steps, r.completed) && r.current.Valid()
      && game.issued == before + steps[..|completed| + 1] && game.scans == scanned + |completed| + 2
  {
    var n := |completed|;
    var step := steps[n];
    assert steps[..n + 1] == steps[..n] + [step];
    var outcome := ExecuteStep(game, current, step);
    if outcome.Failed? {
      return Ends(Report(outcome.status, outcome.shown, completed, Some(step)));
    }
    ChainPush(baseline, steps, completed, outcome.observed);
    ApplyKeepsValid(current, step);
    return Continues(completed + [StepRecord(step, current, outcome.observed)], outcome.observed);
  }

  /** One turn: poll, check dependencies, run the step, poll again. */
  method TakeStep(game: LiveGame, ghost before: seq<Step>, ghost scanned: nat, ghost polled: nat,
                  ghost baseline: City, steps: seq<Step>, completed: seq<StepRecord>, current: City, done: set<StepId>)
    returns (r: TurnResult)
    requires ScansLegal(game.scanResult) && |completed| < |steps|
    requires Reached(game, before, scanned, polled, baseline, steps, completed, current)
    requires IdsUpTo(steps, |completed|, done)
    modifies game`issued, game`scans, game`polls
    ensures r.Ends? <==> !Follows(game, |before|, scanned, polled, baseline, steps, |completed|)
    ensures r.Ends? ==> ClosesAt(game, game.issued, before, scanned, polled, baseline, steps, |completed|, r.report)
    ensures r.Continues? ==> |r.completed| == |completed| + 1
                             && Reached(game, before, scanned, polled, baseline, steps, r.completed, r.current)
  {
    var step := steps[|completed|];
    FollowsHere(game, |before|, scanned, polled, baseline, steps, completed);
    IdsUpToNext(steps, |completed|, done);
    var stop := game.StopRequested();
    if stop { return Ends(Report(Stopped, current, completed, Some(step))); }
    if exists d :: d in step.dependsOn && d !in done {
      return Ends(Report(PreconditionFailed, current, completed, Some(step)));
    }
    r := FinishStep(game, before, scanned, polled, baseline, steps, completed, current);
  }

  /** The rest of a turn that was not stopped and misses no dependency. */
  method FinishStep(game: LiveGame, ghost before: seq<Step>, ghost scanned: nat, ghost polled: nat,
                    ghost baseline: City, steps: seq<Step>, completed: seq<StepRecord>, current: City)
    returns (r: TurnResult)
    requires ScansLegal(game.scanResult) && |completed| < |steps| && current.Valid()
    requires Chain(baseline, steps, completed) && current == LastMap(baseline, completed)
    requires game.issued == before + steps[..|completed|] && game.scans == scanned + |completed| + 1
    requires game.polls == polled + 2 * |completed| + 1
    requires !game.stopRequested(polled + 2 * |completed|) && DependsOnEarlier(steps, |completed|)
    modifies game`issued, game`scans, game`polls
    ensures r.Ends? <==>
      || !StepWorks(game, |before| + |completed|, scanned + |completed| + 1, current, steps[|completed|])
      || game.stopRequested(polled + 2 * |completed| + 1)
    ensures r.Ends? ==> ClosesAt(game, game.issued, before, scanned, polled, baseline, steps, |completed|, r.report)
    ensures r.Continues? ==> |r.completed| == |completed| + 1
                             && Reached(game, before, scanned, polled, baseline, steps, r.completed, r.current)
  {
    r := RunStep(game, before, scanned, baseline, steps, completed, current);
    if r.Continues? {
      var stop := game.StopRequested();
      if stop { return Ends(Report(Stopped, r.current, r.completed, None)); }
    }
  }

  /** A first scan that cannot be reconciled, or that shows another map. */
  ghost function BaselineReport(scan: Option<City>, baseline: City): Report {
    if scan.Some? && Matches(baseline, scan.value, map[])
    then Report(PreconditionFailed, scan.value.(buildings := baseline.buildings), [], None)
    else Report(VerificationFailed, baseline, [], None)
  }

  /**
   What any run reports, whatever the world does. A run completes exactly when the plan
   has nothing unresolved, the first scan shows the baseline, and the world follows every
   step; a completed run ends on the replay of the whole plan. Otherwise the report
   closes at the first step not followed.
   */
  ghost predicate RunReport(game: LiveGame, issued: seq<Step>, before: seq<Step>, scanned: nat, polled: nat,
                            baseline: City, plan: ConstructionPlan, report: Report)
  {
    if plan.unresolved != [] then
      report == Report(BlockedUnresolved, baseline, [], None) && issued == before
    else if !Shows(game.scanResult(scanned), baseline) then
      report == BaselineReport(game.scanResult(scanned), baseline) && issued == before
    else if FollowsAll(game, |before|, scanned, polled, baseline, plan.ordered, |plan.ordered|) then
      && report.status == Complete && report.failedStep == None
      && |report.completed| == |plan.ordered| && Chain(baseline, plan.ordered, report.completed)
      && issued == before + plan.ordered && Replay(baseline, plan.ordered) == Success(report.currentMap)
    else
      exists n :: 0 <= n < |plan.ordered|
        && FollowsAll(game, |before|, scanned, polled, baseline, plan.ordered, n)
        && !Follows(game, |before|, scanned, polled, baseline, plan.ordered, n)
        && ClosesAt(game, issued, before, scanned, polled, baseline, plan.ordered, n, report)
  }

  lemma FollowsNext(game: LiveGame, acted: nat, scanned: nat, polled: nat, baseline: City, steps: seq<Step>, n: nat)
    requires n < |steps| && FollowsAll(game, acted, scanned, polled, baseline, steps, n)
    ensures Follows(game, acted, scanned, polled, baseline, steps, n) ==>
      FollowsAll(game, acted, scanned, polled, baseline, steps, n + 1)
    ensures !Follows(game, acted, scanned, polled, baseline, steps, n) ==>
      !FollowsAll(game, acted, scanned, polled, baseline, steps, |steps|)
  {
  }

  /** The first step the world does not follow is the only one there is. */
  lemma FirstNotFollowed(game: LiveGame, acted: nat, scanned: nat, polled: nat, baseline: City, steps: seq<Step>,
                         n: nat, m: nat)
    requires n < |steps| && m < |steps|
    requires FollowsAll(game, acted, scanned, polled, baseline, steps, n)
    requires !Follows(game, acted, scanned, polled, baseline, steps, n)
    requires FollowsAll(game, acted, scanned, polled, baseline, steps, m)
    requires !Follows(game, acted, scanned, polled, baseline, steps, m)
    ensures n == m
  {
  }

  /**
   A run that reaches a step the map refuses, such as a road that is already there, stops
   with a failed precondition, and nothing is issued for that step.
   */
  lemma RefusedStepStops(game: LiveGame, issued: seq<Step>, before: seq<Step>, scanned: nat, polled: nat,
                         baseline: City, plan: ConstructionPlan, report: Report, n: nat,
                         reached: City)
    requires baseline.Valid() && RunReport(game, issued, before, scanned, polled, baseline, plan, report)
    requires plan.unresolved == [] && n < |plan.ordered|
    requires FollowsAll(game, |before|, scanned, polled, baseline, plan.ordered, n)
    requires Replay(baseline, plan.ordered[..n]) == Success(reached) && !game.stopRequested(polled + 2 * n)
    requires Refused(reached, plan.ordered[n])
    ensures report.status == PreconditionFailed && report.failedStep == Some(plan.ordered[n])
    ensures issued == before + plan.ordered[..n] && |report.completed| == n
    ensures report.currentMap == reached
  {
    var steps := plan.ordered;
    ReplayKeepsValid(baseline, steps[..n]);
    RefusedExactly(reached, steps[n]);
    ReplayNext(baseline, steps, n);
    assert !Follows(game, |before|, scanned, polled, baseline, steps, n);
    var m :| 0 <= m < |steps|
             && FollowsAll(game, |before|, scanned, polled, baseline, steps, m)
             && !Follows(game, |before|, scanned, polled, baseline, steps, m)
             && ClosesAt(game, issued, before, scanned, polled, baseline, steps, m, report);
    FirstNotFollowed(game, |before|, scanned, polled, baseline, steps, n, m);
    ClosesAtRefused(game, issued, before, scanned, polled, baseline, steps, n, report);
  }

  lemma ClosesAtRefused(game: LiveGame, issued: seq<Step>, before: seq<Step>, scanned: nat, polled: nat,
                        baseline: City, steps: seq<Step>, n: nat, report: Report)
    requires n < |steps| && ClosesAt(game, issued, before, scanned, polled, baseline, steps, n, report)
    requires !game.stopRequested(polled + 2 * n)
    requires Replay(baseline, steps[..n]).Success?
    requires ApplyExpected(Replay(baseline, steps[..n]).value, steps[n]).Failure?
    ensures report.status == PreconditionFailed && report.failedStep == Some(steps[n])
    ensures issued == before + steps[..n] && |report.completed| == n
    ensures report.currentMap == Replay(baseline, steps[..n]).value
  {
    ChainIsReplay(baseline, steps, report.completed);
    if |report.completed| == n + 1 { ReplayNext(baseline, steps, n); }
  }

  /** The first scan must reconcile with the baseline, and equal it. */
  method CheckBaseline(game: LiveGame, baseline: City) returns (r: Option<Report>)
    requires baseline.Valid() && ScansLegal(game.scanResult)
    modifies game`scans
    ensures game.scans == old(game.scans) + 1
    ensures r.None? <==> Shows(game.scanResult(old(game.scans)), baseline)
    ensures r.Some? ==> r.value == BaselineReport(game.scanResult(old(game.scans)), baseline)
  {
    var scan := game.Scan();
    if scan.None? { return Some(Report(VerificationFailed, baseline, [], None)); }
    BaselineIffShown(baseline, scan.value);
    var reconciled := Reconcile(baseline, scan.value, map[]);
    if reconciled.Failure? { return Some(Report(VerificationFailed, baseline, [], None)); }
    if reconciled.value.city != baseline { return Some(Report(PreconditionFailed, reconciled.value.city, [], None)); }
    return None;
  }

  method RunPlan(game: LiveGame, baseline: City, plan: ConstructionPlan) returns (report: Report)
    requires baseline.Valid() && ScansLegal(game.scanResult)
    modifies game`issued, game`scans, game`polls
    ensures RunReport(game, game.issued, old(game.issued), old(game.scans), old(game.polls), baseline, plan, report)
    ensures report.status == BlockedUnresolved ==> game.scans == old(game.scans) && game.polls == old(game.polls)
  {
    if plan.unresolved != [] { return Report(BlockedUnresolved, baseline, [], None); }
    ghost var before, scanned, polled := game.issued, game.scans, game.polls;
    var bad := CheckBaseline(game, baseline);
    if bad.Some? { return bad.value; }
    report := RunSteps(game, before, scanned, polled, baseline, plan.ordered);
  }

  method RunSteps(game: LiveGame, ghost before: seq<Step>, ghost scanned: nat, ghost polled: nat, baseline: City,
                  steps: seq<Step>)
    returns (report: Report)
    requires baseline.Valid() && ScansLegal(game.scanResult) && Shows(game.scanResult(scanned), baseline)
    requires game.issued == before && game.scans == scanned + 1 && game.polls == polled
    modifies game`issued, game`scans, game`polls
    ensures RunReport(game, game.issued, before, scanned, polled, baseline, ConstructionPlan(steps, []), report)
    ensures report.status != BlockedUnresolved
  {
    var current, completed, done: set<StepId> := baseline, [], {};
    for n := 0 to |steps|
      invariant |completed| == n && Reached(game, before, scanned, polled, baseline, steps, completed, current)
      invariant IdsUpTo(steps, n, done)
      invariant FollowsAll(game, |before|, scanned, polled, baseline, steps, n)
    {
      FollowsNext(game, |before|, scanned, polled, baseline, steps, n);
      IdsUpToNext(steps, n, done);
      var turn := TakeStep(game, before, scanned, polled, baseline, steps, completed, current, done);
      match turn {
        case Ends(r) => return r;
        case Continues(c, m) => completed, current, done := c, m, done + {steps[n].id};
      }
    }
    ChainIsReplay(baseline, steps, completed);
    assert steps[..|steps|] == steps;
    return Report(Complete, current, completed, None);
  }
}
