/** From the end of the staging loop to the target map. */
module StagingEnd {
  import opened Wrappers
  import opened Orders
  import opened CityMap
  import opened Construction
  import opened Topology
  import opened Planner
  import opened Buildability
  import opened PlanReplay
  import opened StagingModel
  import opened StagingSafety

  // ---- The road steps that waited for the moves --------------------------------------

  /** The unresolved steps that move no building, by id. */
  function OtherSteps(steps: seq<Step>): (others: map<StepId, Step>)
    ensures forall id :: id in others ==> others[id] in steps && others[id].kind != MoveBuilding && others[id].id == id
    ensures forall step :: step in steps && step.kind != MoveBuilding ==> step.id in others
  {
    if steps == [] then map[] else
      var front, last := steps[..|steps| - 1], steps[|steps| - 1];
      assert steps == front + [last];
      if last.kind != MoveBuilding then OtherSteps(front)[last.id := last] else OtherSteps(front)
  }

  /** All the step depends on is done. */
  predicate DependenciesDone(step: Step, done: set<StepId>) {
    forall d :: d in step.dependsOn ==> d in done
  }

  /** Every step of `tail` has its dependencies completed by its turn. */
  ghost predicate TailInOrder(completed: set<StepId>, tail: seq<Step>) {
    forall k {:trigger tail[k]} ::
      0 <= k < |tail| ==> DependenciesDone(tail[k], completed + Elements(StepIds(tail[..k])))
  }

  /** `tail` takes from `others` all it can, leaving `left`. */
  ghost predicate TailOf(others: map<StepId, Step>, completed: set<StepId>, tail: seq<Step>, left: set<StepId>) {
    && NoDuplicates(StepIds(tail))
    && (forall k {:trigger tail[k]} :: 0 <= k < |tail| ==> tail[k].id in others && others[tail[k].id] == tail[k])
    && left == others.Keys - Elements(StepIds(tail))
    && TailInOrder(completed, tail)
    && forall a {:trigger others[a]} :: a in left ==> !DependenciesDone(others[a], completed + Elements(StepIds(tail)))
  }

  function AllMoves(plan: JointPlan): set<StepId> {
    set a | a in Steps(plan) && a.MoveId?
  }

  /** With no move pending the loop's map is the one after the ordered steps and all moves. */
  lemma AllHome(original: City, plan: JointPlan, ids: seq<StepId>, s: StagingState)
    requires IsDiff(original, plan) && Safe(original, plan, ids, s) && s.pending == map[]
    ensures Place(original, s.pos, RoadsAfter(original, plan.result, Elements(ids)))
         == MapAfter(original, plan.result, Elements(ids) + AllMoves(plan))
  {
    var done := Elements(ids) + AllMoves(plan);
    assert RoadsAfter(original, plan.result, done) == RoadsAfter(original, plan.result, Elements(ids));
    forall i | 0 <= i < |original.buildings|
      ensures s.pos[original.buildings[i].spec.id]
        == PositionsAfter(original, plan.result, done)[original.buildings[i].spec.id]
    {
      assert original.buildings[i].spec.id !in s.pending;
      PositionAfter(original, plan.result, done, i);
      DisplacedHasStep(original, plan, i);
    }
  }

  /** The dependencies of a road step, once recorded as completed, are really done. */
  lemma TailDependencies(original: City, plan: JointPlan, ids: seq<StepId>, completed: set<StepId>, a: StepId,
                         before: set<StepId>)
    requires a in Steps(plan) && OnlyMovesAdded(ids, completed)
    requires DependenciesDone(PlanStep(original, plan, a), completed + before)
    ensures DependencyGraph(original, plan)[a] <= Elements(ids) + AllMoves(plan) + before
  {
    forall d | d in DependencyGraph(original, plan)[a] ensures d in Elements(ids) + AllMoves(plan) + before {
      assert d in PlanStep(original, plan, a).dependsOn;
      assert d in Steps(plan);
    }
  }

  lemma RoadStepNext(original: City, plan: JointPlan, done: set<StepId>, a: StepId)
    requires IsDiff(original, plan) && Buildable(original, plan.result)
    requires a in Steps(plan) && !a.MoveId? && a !in done && DependencyGraph(original, plan)[a] <= done
    ensures TryNext(original, plan, done, a) == Success(MapAfter(original, plan.result, done + {a}))
  {
    RoadStepOf(original, plan, a);
    if a.AddId? { AddNext(original, plan, done, a.point); } else { RemoveNext(original, plan, done, a.point); }
  }

  /** Each step of `tail` is a road step of the plan that the ordered part left out. */
  ghost predicate RoadTail(original: City, plan: JointPlan, ids: seq<StepId>, tail: seq<Step>) {
    && NoDuplicates(StepIds(tail))
    && forall k {:trigger tail[k]} :: 0 <= k < |tail| ==>
         && tail[k].id in Steps(plan) && !tail[k].id.MoveId? && tail[k].id !in ids
         && tail[k] == PlanStep(original, plan, tail[k].id)
  }

  lemma {:induction false} TailReplays(original: City, plan: JointPlan, ids: seq<StepId>, s: StagingState,
                                       tail: seq<Step>, k: nat)
    requires IsDiff(original, plan) && Buildable(original, plan.result)
    requires Safe(original, plan, ids, s) && s.pending == map[]
    requires RoadTail(original, plan, ids, tail) && TailInOrder(s.completed, tail) && k <= |tail|
    ensures Replay(original, s.resolved + tail[..k])
         == Success(MapAfter(original, plan.result, Elements(ids) + AllMoves(plan) + Elements(StepIds(tail[..k]))))
    decreases k
  {
    if k == 0 {
      AllHome(original, plan, ids, s);
      assert s.resolved + tail[..0] == s.resolved;
      assert Elements(ids) + AllMoves(plan) + Elements(StepIds(tail[..0])) == Elements(ids) + AllMoves(plan);
    } else {
      TailReplays(original, plan, ids, s, tail, k - 1);
      TailTurn(original, plan, ids, s.completed, tail, k - 1);
      TailPush(s.resolved, tail, k - 1);
      ReplayExtend(original, s.resolved + tail[..k - 1], tail[k - 1]);
    }
  }

  lemma TailPush(resolved: seq<Step>, tail: seq<Step>, k: nat)
    requires k < |tail|
    ensures resolved + tail[..k + 1] == (resolved + tail[..k]) + [tail[k]]
    ensures Elements(StepIds(tail[..k + 1])) == Elements(StepIds(tail[..k])) + {tail[k].id}
  {
    assert tail[..k + 1] == tail[..k] + [tail[k]];
    StepIdsPush(tail[..k], tail[k]);
  }

  lemma TailTurn(original: City, plan: JointPlan, ids: seq<StepId>, completed: set<StepId>, tail: seq<Step>, k: nat)
    requires IsDiff(original, plan) && Buildable(original, plan.result) && OnlyMovesAdded(ids, completed)
    requires RoadTail(original, plan, ids, tail) && TailInOrder(completed, tail) && k < |tail|
    ensures var done := Elements(ids) + AllMoves(plan) + Elements(StepIds(tail[..k]));
      ApplyExpected(MapAfter(original, plan.result, done), tail[k])
      == Success(MapAfter(original, plan.result, Elements(ids) + AllMoves(plan) + Elements(StepIds(tail[..k + 1]))))
  {
    var before := Elements(StepIds(tail[..k]));
    var done, a := Elements(ids) + AllMoves(plan) + before, tail[k].id;
    TailDependencies(original, plan, ids, completed, a, before);
    NotYet(tail, k);
    RoadStepNext(original, plan, done, a);
    TailPush([], tail, k);
    assert done + {a} == Elements(ids) + AllMoves(plan) + Elements(StepIds(tail[..k + 1]));
  }

  lemma NotYet(tail: seq<Step>, k: nat)
    requires NoDuplicates(StepIds(tail)) && k < |tail|
    ensures tail[k].id !in Elements(StepIds(tail[..k]))
  {
    assert forall j :: 0 <= j < k ==> StepIds(tail[..k])[j] == StepIds(tail)[j] != StepIds(tail)[k];
  }

  lemma {:induction false} TailMeetsDependencies(resolved: seq<Step>, completed: set<StepId>, tail: seq<Step>, k: nat)
    requires DependenciesMet(resolved) && completed == Elements(StepIds(resolved))
    requires TailInOrder(completed, tail) && k <= |tail|
    ensures DependenciesMet(resolved + tail[..k])
    ensures Elements(StepIds(resolved + tail[..k])) == completed + Elements(StepIds(tail[..k]))
    decreases k
  {
    if k == 0 {
      assert resolved + tail[..0] == resolved;
    } else {
      TailMeetsDependencies(resolved, completed, tail, k - 1);
      TailPush(resolved, tail, k - 1);
      assert DependenciesDone(tail[k - 1], completed + Elements(StepIds(tail[..k - 1])));
      DependenciesPush(resolved + tail[..k - 1], tail[k - 1]);
      StepIdsPush(resolved + tail[..k - 1], tail[k - 1]);
    }
  }

  lemma TailStepIsRoad(original: City, plan: JointPlan, cp: ConstructionPlan, ids: seq<StepId>, step: Step)
    requires Planned(original, plan, cp, ids) && step in cp.unresolved && step.kind != MoveBuilding
    ensures step.id in Steps(plan) && !step.id.MoveId? && step.id !in ids && step == PlanStep(original, plan, step.id)
  {
    UnresolvedStep(original, plan, cp, ids, step);
    StepsKeyed(plan, step.id);
  }

  lemma OthersAreRoads(original: City, plan: JointPlan, cp: ConstructionPlan, ids: seq<StepId>, tail: seq<Step>,
                       left: set<StepId>, completed: set<StepId>)
    requires Planned(original, plan, cp, ids) && TailOf(OtherSteps(cp.unresolved), completed, tail, left)
    ensures RoadTail(original, plan, ids, tail)
  {
    var others := OtherSteps(cp.unresolved);
    forall k | 0 <= k < |tail|
      ensures tail[k].id in Steps(plan) && !tail[k].id.MoveId? && tail[k].id !in ids
              && tail[k] == PlanStep(original, plan, tail[k].id)
    {
      assert others[tail[k].id] == tail[k];
      TailStepIsRoad(original, plan, cp, ids, tail[k]);
    }
  }

  lemma RoadLeftOutIsOther(original: City, plan: JointPlan, cp: ConstructionPlan, ids: seq<StepId>, a: StepId)
    requires Planned(original, plan, cp, ids) && a in Steps(plan) && a !in ids && !a.MoveId?
    ensures a in OtherSteps(cp.unresolved)
  {
    LeftOutIsUnresolved(original, plan, cp, ids, a);
    StepsKeyed(plan, a);
  }

  lemma TailInPlan(original: City, plan: JointPlan, ids: seq<StepId>, tail: seq<Step>)
    requires RoadTail(original, plan, ids, tail)
    ensures Elements(StepIds(tail)) <= Steps(plan).Keys
  {
    forall a | a in Elements(StepIds(tail)) ensures a in Steps(plan) {
      var k :| 0 <= k < |tail| && StepIds(tail)[k] == a;
      assert tail[k].id == a;
    }
  }

  lemma TakenOrLeft(original: City, plan: JointPlan, cp: ConstructionPlan, ids: seq<StepId>, a: StepId,
                    taken: set<StepId>)
    requires Planned(original, plan, cp, ids) && a in Steps(plan)
    requires OtherSteps(cp.unresolved).Keys <= taken
    ensures a in Elements(ids) + AllMoves(plan) + taken
  {
    if a !in ids && !a.MoveId? { RoadLeftOutIsOther(original, plan, cp, ids, a); }
  }

  /** With no road step left, ordered steps, moves and tail are the whole plan. */
  lemma EverythingTaken(original: City, plan: JointPlan, cp: ConstructionPlan, ids: seq<StepId>, tail: seq<Step>)
    requires Planned(original, plan, cp, ids) && RoadTail(original, plan, ids, tail)
    requires OtherSteps(cp.unresolved).Keys <= Elements(StepIds(tail))
    ensures Elements(ids) + AllMoves(plan) + Elements(StepIds(tail)) == Steps(plan).Keys
  {
    OrderedInGraph(DependencyGraph(original, plan), ids);
    TailInPlan(original, plan, ids, tail);
    forall a | a in Steps(plan) ensures a in Elements(ids) + AllMoves(plan) + Elements(StepIds(tail)) {
      TakenOrLeft(original, plan, cp, ids, a, Elements(StepIds(tail)));
    }
  }

  /**
   End to end. When the staging loop has brought every pending building home and every
   road step has been taken up, replaying the resolved steps on the original map meets
   no failing precondition and ends on exactly the target; no step runs before one it
   depends on.
   */
  lemma StagedPlanReachesTarget(original: City, plan: JointPlan, cp: ConstructionPlan, ids: seq<StepId>,
                                env: Env, trace: seq<StagingState>, tail: seq<Step>)
    requires IsDiff(original, plan) && Buildable(original, plan.result) && Planned(original, plan, cp, ids)
    requires env == StagingEnv(original, plan, MapAfter(original, plan.result, Elements(ids)))
    requires Run(env, trace) && trace[0] == StartState(cp, env.city) && trace[|trace| - 1].pending == map[]
    requires TailOf(OtherSteps(cp.unresolved), trace[|trace| - 1].completed, tail, {})
    ensures Replay(original, trace[|trace| - 1].resolved + tail) == Success(plan.result)
    ensures DependenciesMet(trace[|trace| - 1].resolved + tail)
  {
    EndIsSafe(original, plan, cp, ids, env, trace);
    SafeEndReplays(original, plan, cp, ids, trace[|trace| - 1], tail);
    SafeEndInOrder(original, plan, ids, trace[|trace| - 1], tail);
  }

  lemma EndIsSafe(original: City, plan: JointPlan, cp: ConstructionPlan, ids: seq<StepId>, env: Env,
                  trace: seq<StagingState>)
    requires IsDiff(original, plan) && Buildable(original, plan.result) && Planned(original, plan, cp, ids)
    requires env == StagingEnv(original, plan, MapAfter(original, plan.result, Elements(ids)))
    requires Run(env, trace) && trace[0] == StartState(cp, env.city)
    ensures Safe(original, plan, ids, trace[|trace| - 1])
  {
    StartIsSafe(original, plan, cp, ids);
    RunIsSafe(original, plan, ids, env, trace, |trace| - 1);
  }

  /** A tail that takes in everything left ends the replay on the target. */
  lemma TailEndsOnTarget(original: City, plan: JointPlan, ids: seq<StepId>, s: StagingState, tail: seq<Step>)
    requires IsDiff(original, plan) && Buildable(original, plan.result)
    requires Safe(original, plan, ids, s) && s.pending == map[]
    requires RoadTail(original, plan, ids, tail) && TailInOrder(s.completed, tail)
    requires Elements(ids) + AllMoves(plan) + Elements(StepIds(tail)) == Steps(plan).Keys
    ensures Replay(original, s.resolved + tail) == Success(plan.result)
  {
    Whole(tail);
    TailReplays(original, plan, ids, s, tail, |tail|);
    AllDone(original, plan, Steps(plan).Keys);
  }

  lemma SafeEndReplays(original: City, plan: JointPlan, cp: ConstructionPlan, ids: seq<StepId>, s: StagingState,
                       tail: seq<Step>)
    requires IsDiff(original, plan) && Buildable(original, plan.result) && Planned(original, plan, cp, ids)
    requires Safe(original, plan, ids, s) && s.pending == map[]
    requires TailOf(OtherSteps(cp.unresolved), s.completed, tail, {})
    ensures Replay(original, s.resolved + tail) == Success(plan.result)
  {
    OthersAreRoads(original, plan, cp, ids, tail, {}, s.completed);
    TailIsWhole(original, plan, cp, ids, s.completed, tail);
    TailEndsOnTarget(original, plan, ids, s, tail);
  }

  /** A tail that leaves no road step out completes the plan. */
  lemma TailIsWhole(original: City, plan: JointPlan, cp: ConstructionPlan, ids: seq<StepId>, completed: set<StepId>,
                    tail: seq<Step>)
    requires IsDiff(original, plan) && Planned(original, plan, cp, ids)
    requires TailOf(OtherSteps(cp.unresolved), completed, tail, {})
    ensures Elements(ids) + AllMoves(plan) + Elements(StepIds(tail)) == Steps(plan).Keys
  {
    OthersAreRoads(original, plan, cp, ids, tail, {}, completed);
    NothingLeftOut(OtherSteps(cp.unresolved), completed, tail);
    EverythingTaken(original, plan, cp, ids, tail);
  }

  lemma NothingLeftOut(others: map<StepId, Step>, completed: set<StepId>, tail: seq<Step>)
    requires TailOf(others, completed, tail, {})
    ensures others.Keys <= Elements(StepIds(tail))
  {
  }

  lemma SafeEndInOrder(original: City, plan: JointPlan, ids: seq<StepId>, s: StagingState, tail: seq<Step>)
    requires IsDiff(original, plan) && Safe(original, plan, ids, s) && TailInOrder(s.completed, tail)
    ensures DependenciesMet(s.resolved + tail)
  {
    Whole(tail);
    TailMeetsDependencies(s.resolved, s.completed, tail, |tail|);
  }

  lemma PlanMoveIsAimed(original: City, plan: JointPlan, env: Env, id: string)
    requires IsDiff(original, plan) && env.original == original && env.target == plan.result
    requires MoveId(id) in Steps(plan)
    ensures id in Ids(original.buildings) && AimedMove(env, id, PlanStep(original, plan, MoveId(id)))
  {
    var i := MoveStepOf(original, plan, id);
    AtIs(original, i, plan.result.buildings[i].origin);
    assert original.buildings[i].(origin := plan.result.buildings[i].origin) == plan.result.buildings[i];
    assert plan.result.buildings[i].spec.id == id;
    forall d | d in PlanStep(original, plan, MoveId(id)).dependsOn ensures !d.StageId? {
      assert d in DependencyGraph(original, plan)[MoveId(id)];
    }
  }

  /** The planner's moves are aimed at the target, as the progress argument needs. */
  lemma PlannedIsAimed(original: City, plan: JointPlan, env: Env, ids: seq<StepId>, s: StagingState)
    requires IsDiff(original, plan) && env.original == original && env.target == plan.result
    requires s.pos.Keys == Ids(original.buildings) && PendingPlanned(original, plan, ids, s.pending)
    ensures Aimed(env, s)
  {
    forall id | id in s.pending ensures id in s.pos && AimedMove(env, id, s.pending[id]) {
      assert s.pending[id] == PlanStep(original, plan, MoveId(id));
      PlanMoveIsAimed(original, plan, env, id);
    }
  }
}
