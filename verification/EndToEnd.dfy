/** Planner and staging together: what a resolved plan guarantees. */
module EndToEnd {
  import opened Wrappers
  import opened Orders
  import opened CityMap
  import opened Construction
  import opened Topology
  import opened Planner
  import opened Buildability
  import opened PlanReplay
  import opened StagingModel
  import opened StagingSafety
  import opened StagingEnd
  import opened StagingSolver

  lemma UnresolvedIdsUnique(original: City, plan: JointPlan, cp: ConstructionPlan, ids: seq<StepId>)
    requires Planned(original, plan, cp, ids)
    ensures NoDuplicates(StepIds(cp.unresolved))
  {
    AttachKeepsIds(plan, DependencyGraph(original, plan), Remainder(DependencyGraph(original, plan), ids));
  }

  /** What the planner leaves unresolved is fit for the staging solver. */
  lemma PlannedIsCoherent(original: City, plan: JointPlan, cp: ConstructionPlan, ids: seq<StepId>)
    requires IsDiff(original, plan) && Planned(original, plan, cp, ids)
    ensures Coherent(original, plan.result, cp)
  {
    UnresolvedIdsUnique(original, plan, cp, ids);
    forall step | step in cp.unresolved && IsMove(step)
      ensures AimedMove(Env(original, plan.result, original), step.building.value, step)
    {
      UnresolvedStep(original, plan, cp, ids, step);
      PlanMoveIsAimed(original, plan, Env(original, plan.result, original), step.building.value);
    }
  }

  lemma PlannedMoversKnown(original: City, plan: JointPlan, cp: ConstructionPlan, ids: seq<StepId>)
    requires IsDiff(original, plan) && Planned(original, plan, cp, ids)
    ensures !UnknownMover(original, plan.result, UnresolvedMoves(cp.unresolved))
  {
    StartPending(original, plan, cp, ids);
    PendingKnown(original, plan, ids, UnresolvedMoves(cp.unresolved));
  }

  lemma PendingKnown(original: City, plan: JointPlan, ids: seq<StepId>, pending: map<string, Step>)
    requires IsDiff(original, plan) && PendingPlanned(original, plan, ids, pending)
    ensures !UnknownMover(original, plan.result, pending)
  {
    forall id | id in pending ensures Known(original, id) && Known(plan.result, id) {
      assert pending[id] == PlanStep(original, plan, MoveId(id));
      MoverKnown(original, plan, id);
    }
  }

  lemma MoverKnown(original: City, plan: JointPlan, id: string)
    requires IsDiff(original, plan) && MoveId(id) in Steps(plan)
    ensures Known(original, id) && Known(plan.result, id)
  {
    var i := MoveStepOf(original, plan, id);
  }

  lemma PrefixCity(original: City, plan: JointPlan, cp: ConstructionPlan, ids: seq<StepId>)
    requires IsDiff(original, plan) && Buildable(original, plan.result) && Planned(original, plan, cp, ids)
    ensures PrefixReplay(original, cp.ordered) == Success(MapAfter(original, plan.result, Elements(ids)))
  {
    PrefixReplays(original, plan, cp, ids);
    CheckedReplayIsPrefixReplay(original, cp.ordered);
  }

  lemma NothingLeft(pending: map<string, Step>, others: map<StepId, Step>, left: set<StepId>)
    requires left <= others.Keys && Leftover(pending, others, left) == []
    ensures pending == map[] && left == {}
  {
    var ids := (set id | id in pending :: MoveId(id)) + left;
    assert forall a :: a in ids ==> a in SortedIds(ids);
    assert forall id :: id in pending ==> MoveId(id) in ids;
  }

  /** On the planner's output for a buildable plan the staging solver raises no error. */
  lemma NeverRaises(original: City, plan: JointPlan, cp: ConstructionPlan, ids: seq<StepId>,
                    r: Resolution, trace: seq<StagingState>, tail: seq<Step>, left: set<StepId>)
    requires IsDiff(original, plan) && Buildable(original, plan.result) && Planned(original, plan, cp, ids)
    requires Answers(original, plan, cp, r, trace, tail, left)
    ensures !r.Raises?
  {
    PlannedMoversKnown(original, plan, cp, ids);
    PrefixCity(original, plan, cp, ids);
  }

  /**
   A fully resolved plan replays from the original map with no precondition failing,
   respects every declared dependency, and ends on exactly the target map.
   */
  lemma ResolvedReachesTarget(original: City, plan: JointPlan, cp: ConstructionPlan, ids: seq<StepId>,
                              r: Resolution, trace: seq<StagingState>, tail: seq<Step>, left: set<StepId>)
    requires IsDiff(original, plan) && Buildable(original, plan.result) && Planned(original, plan, cp, ids)
    requires Answers(original, plan, cp, r, trace, tail, left)
    requires r.Resolved? && r.plan.unresolved == []
    ensures Replay(original, r.plan.ordered) == Success(plan.result)
    ensures DependenciesMet(r.plan.ordered)
  {
    if UnresolvedMoves(cp.unresolved) == map[] {
      ReachesTargetIffBuildable(original, plan, cp, ids);
      RemainderExact(original, plan, cp, ids);
    } else {
      PlannedMoversKnown(original, plan, cp, ids);
      PrefixCity(original, plan, cp, ids);
      NothingLeft(trace[|trace| - 1].pending, OtherSteps(cp.unresolved), left);
      StagedPlanReachesTarget(original, plan, cp, ids,
        StagingEnv(original, plan, MapAfter(original, plan.result, Elements(ids))), trace, tail);
    }
  }
}
