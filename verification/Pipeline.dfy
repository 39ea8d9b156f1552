/** The whole construction pipeline: plan, stage, execute. */
module Pipeline {
  import opened Wrappers
  import opened CityMap
  import opened Construction
  import opened Topology
  import opened Planner
  import opened Buildability
  import opened StagingModel
  import opened StagingSolver
  import opened EndToEnd
  import opened PlanKnots
  import opened StagingCompletes
  import opened Execution

  /**
   A world that does as it is told: no stop, every action succeeds and does exactly its
   step, every scan shows the resulting map in some order and under some tags.
   */
  ghost predicate FaithfulWorld(game: LiveGame, acted: nat, scanned: nat, polled: nat, baseline: City, steps: seq<Step>)
  {
    && Shows(game.scanResult(scanned), baseline)
    && forall k {:trigger Obeys(game, acted, scanned, polled, baseline, steps, k)} :: 0 <= k < |steps| ==>
         Obeys(game, acted, scanned, polled, baseline, steps, k)
  }

  ghost predicate Obeys(game: LiveGame, acted: nat, scanned: nat, polled: nat, baseline: City, steps: seq<Step>, k: int)
    requires 0 <= k < |steps|
  {
    && game.actionSucceeds(acted + k)
    && !game.stopRequested(polled + 2 * k) && !game.stopRequested(polled + 2 * k + 1)
    && (Replay(baseline, steps[..k + 1]).Success? ==>
          Shows(game.scanResult(scanned + k + 1), Replay(baseline, steps[..k + 1]).value))
  }

  /** A faithful world follows every plan that can be replayed in dependency order. */
  lemma FaithfulFollows(game: LiveGame, acted: nat, scanned: nat, polled: nat, baseline: City, steps: seq<Step>)
    requires FaithfulWorld(game, acted, scanned, polled, baseline, steps)
    requires Replay(baseline, steps).Success? && DependenciesMet(steps)
    ensures FollowsAll(game, acted, scanned, polled, baseline, steps, |steps|)
  {
    forall k | 0 <= k < |steps| ensures Follows(game, acted, scanned, polled, baseline, steps, k) {
      assert Obeys(game, acted, scanned, polled, baseline, steps, k);
      assert DependsOnEarlier(steps, k);
      ReplayPrefixes(baseline, steps, k + 1);
    }
  }

  datatype PipelineResult =
    | Executed(resolved: ConstructionPlan, report: Report)
    | NotResolved
    | Rejected

  /** `r` is what comes of the planner's and the solver's answers. */
  ghost predicate Delivers(original: City, plan: JointPlan, cp: ConstructionPlan, ids: seq<StepId>, answer: Resolution,
                           trace: seq<StagingState>, tail: seq<Step>, left: set<StepId>, r: PipelineResult)
  {
    && Planned(original, plan, cp, ids) && Answers(original, plan, cp, answer, trace, tail, left)
    && match r
       case NotResolved => answer.RunsForever?
       case Rejected => answer.Raises?
       case Executed(resolved, _) => answer.Resolved? && answer.plan == resolved
  }

  /** No step of the plan waits on a cycle. */
  ghost predicate Acyclic(original: City, plan: JointPlan) {
    forall a :: a in Steps(plan) ==> !ReachesCycle(DependencyGraph(original, plan), a)
  }

  /** What a buildable difference comes to, told from the plan. */
  lemma BuildableDelivers(original: City, plan: JointPlan, cp: ConstructionPlan, ids: seq<StepId>, answer: Resolution,
                          trace: seq<StagingState>, tail: seq<Step>, left: set<StepId>, r: PipelineResult)
    requires IsDiff(original, plan) && Buildable(original, plan.result)
    requires Delivers(original, plan, cp, ids, answer, trace, tail, left, r)
    ensures !r.Rejected?
    ensures r.NotResolved? ==> !PlanUntangled(original, plan)
    ensures Acyclic(original, plan) ==> r.Executed? && r.resolved.unresolved == []
    ensures r.Executed? && r.resolved.unresolved == [] <==>
      PlanUntangled(original, plan) && PureCycles(original, plan) && !EndsCornered(original, plan, cp, ids, trace)
    ensures r.Executed? && r.resolved.unresolved == [] ==>
      Replay(original, r.resolved.ordered) == Success(plan.result) && DependenciesMet(r.resolved.ordered)
  {
    NeverRaises(original, plan, cp, ids, answer, trace, tail, left);
    UntangledIsResolved(original, plan, cp, ids, answer, trace, tail, left);
    if Acyclic(original, plan) { AcyclicIsResolved(original, plan, cp, ids, answer, trace, tail, left); }
    if answer.Resolved? && answer.plan.unresolved == [] {
      ResolvedReachesTarget(original, plan, cp, ids, answer, trace, tail, left);
    }
  }

  /**
   Plan the difference, stage its cycles, execute what comes out. The result is the
   planner's and the solver's answer, carried out. A buildable difference is never rejected;
   it is given up only when its plan is tangled, and executed in full when it is acyclic.
   Leftover steps block the run before its first action. A full resolution leads to exactly
   the target, and a faithful world is brought there.
   */
  method PlanStageExecute(game: LiveGame, original: City, plan: JointPlan) returns (r: PipelineResult)
    requires IsDiff(original, plan) && ScansLegal(game.scanResult)
    modifies game`issued, game`scans, game`polls
    ensures exists cp, ids, answer, trace, tail, left :: Delivers(original, plan, cp, ids, answer, trace, tail, left, r)
    ensures r.NotResolved? || r.Rejected? ==>
      game.issued == old(game.issued) && game.scans == old(game.scans) && game.polls == old(game.polls)
    ensures Buildable(original, plan.result) ==> !r.Rejected? && (r.NotResolved? ==> !PlanUntangled(original, plan))
    ensures Buildable(original, plan.result) && Acyclic(original, plan) ==> r.Executed? && r.resolved.unresolved == []
    ensures r.Executed? ==>
      RunReport(game, game.issued, old(game.issued), old(game.scans), old(game.polls), original, r.resolved, r.report)
    ensures r.Executed? && r.resolved.unresolved != [] ==>
      r.report.status == BlockedUnresolved && game.issued == old(game.issued)
    ensures r.Executed? && r.resolved.unresolved == [] && Buildable(original, plan.result) ==>
      && Replay(original, r.resolved.ordered) == Success(plan.result) && DependenciesMet(r.resolved.ordered)
      && (r.report.status == Complete <==>
          FollowsAll(game, |old(game.issued)|, old(game.scans), old(game.polls), original, r.resolved.ordered,
            |r.resolved.ordered|))
      && (r.report.status == Complete ==> r.report.currentMap == plan.result)
      && (FaithfulWorld(game, |old(game.issued)|, old(game.scans), old(game.polls), original, r.resolved.ordered) ==>
            r.report.status == Complete && r.report.currentMap == plan.result)
  {
    var built, ids := BuildPlan(original, plan);
    DiffLooksUp(original, plan);
    assert built.Success?;
    PlannedIsCoherent(original, plan, built.value, ids);
    var staged, trace, tail, left := Resolve(original, plan, built.value);
    match staged {
      case RunsForever => r := NotResolved;
      case Raises(_) => r := Rejected;
      case Resolved(resolved, _) => r := ExecuteResolved(game, original, resolved);
    }
    assert Delivers(original, plan, built.value, ids, staged, trace, tail, left, r);
    if Buildable(original, plan.result) {
      BuildableDelivers(original, plan, built.value, ids, staged, trace, tail, left, r);
    }
  }

  method ExecuteResolved(game: LiveGame, original: City, resolved: ConstructionPlan) returns (r: PipelineResult)
    requires original.Valid() && ScansLegal(game.scanResult)
    modifies game`issued, game`scans, game`polls
    ensures r.Executed? && r.resolved == resolved
    ensures RunReport(game, game.issued, old(game.issued), old(game.scans), old(game.polls), original, resolved,
      r.report)
    ensures resolved.unresolved != [] ==> r.report.status == BlockedUnresolved && game.issued == old(game.issued)
    ensures resolved.unresolved == [] ==>
      (r.report.status == Complete <==>
       FollowsAll(game, |old(game.issued)|, old(game.scans), old(game.polls), original, resolved.ordered,
         |resolved.ordered|))
    ensures resolved.unresolved == [] && r.report.status == Complete ==>
      Replay(original, resolved.ordered) == Success(r.report.currentMap)
    ensures
      resolved.unresolved == [] && Replay(original, resolved.ordered).Success? && DependenciesMet(resolved.ordered) ==>
      (FaithfulWorld(game, |old(game.issued)|, old(game.scans), old(game.polls), original, resolved.ordered) ==>
       r.report.status == Complete)
  {
    ghost var acted, scanned, polled := |game.issued|, game.scans, game.polls;
    var report := RunPlan(game, original, resolved);
    if Replay(original, resolved.ordered).Success? && DependenciesMet(resolved.ordered)
       && FaithfulWorld(game, acted, scanned, polled, original, resolved.ordered) {
      FaithfulFollows(game, acted, scanned, polled, original, resolved.ordered);
    }
    return Executed(resolved, report);
  }

  /** Every building a difference names is on both maps, so the builder finds them all. */
  lemma DiffLooksUp(original: City, plan: JointPlan)
    requires IsDiff(original, plan)
    ensures !LookupFails(original, plan)
  {
    forall b | b in Moved(plan.moves) ensures Known(original, b) && Known(plan.result, b) {
      var i := MoveStepOf(original, plan, b);
    }
  }
}
