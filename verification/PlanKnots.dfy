/** The staging loop's outcome, told from the plan before anything is built. */
module PlanKnots {
  import opened Orders
  import opened CityMap
  import opened Construction
  import opened Topology
  import opened Planner
  import opened Buildability
  import opened PlanReplay
  import opened StagingModel
  import opened StagingProgress
  import opened StagingSafety
  import opened StagingEnd
  import opened StagingKnots

  /** The planner leaves the move of `x` to the staging loop. */
  ghost predicate Stuck(original: City, plan: JointPlan, x: string) {
    MoveId(x) in Steps(plan) && ReachesCycle(DependencyGraph(original, plan), MoveId(x))
  }

  /** Whatever new road the move of `x` waits for can be built in the planner's order. */
  ghost predicate MayMove(original: City, plan: JointPlan, x: string) {
    Stuck(original, plan, x) && forall p {:trigger AddId(p)} ::
      AddId(p) in DependencyGraph(original, plan)[MoveId(x)] ==>
        !ReachesCycle(DependencyGraph(original, plan), AddId(p))
  }

  /** The move of `x` waits for the move of `y`, and both are left to the loop. */
  ghost predicate HoldsBack(original: City, plan: JointPlan, x: string, y: string) {
    Stuck(original, plan, x) && Stuck(original, plan, y) && MoveId(y) in DependencyGraph(original, plan)[MoveId(x)]
  }

  ghost predicate PlanLink(original: City, plan: JointPlan, x: string, w: seq<string>, i: int)
    requires 0 <= i < |w| - 1
  {
    HoldsBack(original, plan, w[i], w[i + 1]) && (LexLess(x, w[i + 1]) || !MayMove(original, plan, w[i + 1]))
  }

  /** From `x`, waiting only for moves named after it or unable to start, one comes round or gets stuck. */
  ghost predicate PlanKnot(original: City, plan: JointPlan, x: string, w: seq<string>) {
    && w != [] && w[0] == x
    && (forall i {:trigger PlanLink(original, plan, x, w, i)} :: 0 <= i < |w| - 1 ==> PlanLink(original, plan, x, w, i))
    && (!NoDuplicates(w) || !MayMove(original, plan, w[|w| - 1]))
  }

  /**
   The condition on a plan under which the staging loop ends: no move that may start waits,
   through moves named after it, on a cycle without it or on a move that may not start.
   */
  ghost predicate PlanUntangled(original: City, plan: JointPlan) {
    forall x, w {:trigger PlanKnot(original, plan, x, w)} ::
      MayMove(original, plan, x) ==> !PlanKnot(original, plan, x, w)
  }

  /** Cyclic moves wait for no cyclic road. */
  ghost predicate PureCycles(original: City, plan: JointPlan) {
    forall x {:trigger Stuck(original, plan, x)} :: Stuck(original, plan, x) ==> MayMove(original, plan, x)
  }

  // ---- The loop's first state, in terms of the plan ----------------------------------

  lemma PendingIffStuck(original: City, plan: JointPlan, cp: ConstructionPlan, ids: seq<StepId>, x: string)
    requires Planned(original, plan, cp, ids)
    ensures x in UnresolvedMoves(cp.unresolved) <==> Stuck(original, plan, x)
    ensures MoveId(x) in Steps(plan) ==> (MoveId(x) in ids <==> !Stuck(original, plan, x))
  {
    StartPending(original, plan, cp, ids);
    var pending := UnresolvedMoves(cp.unresolved);
    if x in pending { assert pending[x] == PlanStep(original, plan, MoveId(x)); }
    if MoveId(x) in Steps(plan) {
      UnresolvedIffCyclic(DependencyGraph(original, plan), ids, MoveId(x));
      if MoveId(x) !in ids { UnorderedMoveIsPending(original, plan, cp, ids, x); }
    }
  }

  /** A move waits for moves and for new roads only. */
  lemma MoveWaitsFor(original: City, plan: JointPlan, x: string, d: StepId)
    requires MoveId(x) in Steps(plan) && d in DependencyGraph(original, plan)[MoveId(x)]
    ensures d in Steps(plan) && (d.MoveId? || d.AddId?)
  {
  }

  /** The loop does not hold a move back for this. */
  ghost predicate Provided(s: StagingState, d: StepId) {
    d in PendingIds(s) || d in s.completed
  }

  ghost predicate NoHindrance(g: Graph, d: StepId) {
    d.MoveId? || !ReachesCycle(g, d)
  }

  lemma DependencyDone(original: City, plan: JointPlan, cp: ConstructionPlan, ids: seq<StepId>, city: City, x: string,
                       d: StepId)
    requires Planned(original, plan, cp, ids) && MoveId(x) in Steps(plan)
      && d in DependencyGraph(original, plan)[MoveId(x)]
    ensures Provided(StartState(cp, city), d) <==> NoHindrance(DependencyGraph(original, plan), d)
  {
    MoveWaitsFor(original, plan, x, d);
    UnresolvedIffCyclic(DependencyGraph(original, plan), ids, d);
    CompletedAtStart(original, plan, cp, ids, d);
    PendingIdsAtStart(original, plan, cp, ids, city, d);
    if d.MoveId? { PendingIffStuck(original, plan, cp, ids, d.building); }
  }

  lemma CompletedAtStart(original: City, plan: JointPlan, cp: ConstructionPlan, ids: seq<StepId>, d: StepId)
    requires Planned(original, plan, cp, ids)
    ensures d in Elements(StepIds(cp.ordered)) <==> d in ids
  {
    AttachKeepsIds(plan, DependencyGraph(original, plan), ids);
  }

  lemma PendingIdsAtStart(original: City, plan: JointPlan, cp: ConstructionPlan, ids: seq<StepId>, city: City,
                          d: StepId)
    requires Planned(original, plan, cp, ids)
    ensures d in PendingIds(StartState(cp, city)) <==> d.MoveId? && d.building in UnresolvedMoves(cp.unresolved)
  {
    var pending := UnresolvedMoves(cp.unresolved);
    StartPending(original, plan, cp, ids);
    forall id | id in pending ensures pending[id].id == MoveId(id) {
      assert pending[id] == PlanStep(original, plan, MoveId(id));
      StepsKeyed(plan, MoveId(id));
    }
    if d.MoveId? && d.building in pending { assert pending[d.building].id == d; }
  }

  lemma PlanStepWaits(original: City, plan: JointPlan, a: StepId, d: StepId)
    requires a in Steps(plan)
    ensures d in PlanStep(original, plan, a).dependsOn <==> d in DependencyGraph(original, plan)[a]
  {
  }

  lemma MayMoveExactly(original: City, plan: JointPlan, x: string)
    requires Stuck(original, plan, x)
    ensures MayMove(original, plan, x) <==>
      forall d {:trigger NoHindrance(DependencyGraph(original, plan), d)} ::
        d in DependencyGraph(original, plan)[MoveId(x)] ==> NoHindrance(DependencyGraph(original, plan), d)
  {
    var g := DependencyGraph(original, plan);
    forall d: StepId | d in g[MoveId(x)] ensures d.MoveId? || d.AddId? { MoveWaitsFor(original, plan, x, d); }
    if MayMove(original, plan, x) {
      forall d | d in g[MoveId(x)] ensures NoHindrance(g, d) { assert d.AddId? ==> d == AddId(d.point); }
    } else {
      var p :| AddId(p) in g[MoveId(x)] && ReachesCycle(g, AddId(p));
      assert !NoHindrance(g, AddId(p));
    }
  }

  lemma EligibleMeans(s: StagingState, x: string, deps: set<StepId>)
    requires x in s.pending && forall d :: d in s.pending[x].dependsOn <==> d in deps
    ensures Eligible(s, x) <==> forall d {:trigger Provided(s, d)} :: d in deps ==> Provided(s, d)
  {
    if Eligible(s, x) {
      forall d | d in deps ensures Provided(s, d) { assert d in s.pending[x].dependsOn; }
    }
    if forall d {:trigger Provided(s, d)} :: d in deps ==> Provided(s, d) {
      forall d | d in s.pending[x].dependsOn ensures d in PendingIds(s) || d in s.completed { assert Provided(s, d); }
    }
  }

  lemma PendingWaits(original: City, plan: JointPlan, cp: ConstructionPlan, ids: seq<StepId>, x: string)
    requires Planned(original, plan, cp, ids) && x in UnresolvedMoves(cp.unresolved)
    ensures MoveId(x) in Steps(plan)
    ensures forall d ::
      d in UnresolvedMoves(cp.unresolved)[x].dependsOn <==> d in DependencyGraph(original, plan)[MoveId(x)]
  {
    StartPending(original, plan, cp, ids);
    assert UnresolvedMoves(cp.unresolved)[x] == PlanStep(original, plan, MoveId(x));
    forall d
      ensures d in PlanStep(original, plan, MoveId(x)).dependsOn <==> d in DependencyGraph(original, plan)[MoveId(x)]
    {
      PlanStepWaits(original, plan, MoveId(x), d);
    }
  }

  /** At the start whoever may move is eligible, wherever the buildings stand. */
  lemma EligibleAtStart(original: City, plan: JointPlan, cp: ConstructionPlan, ids: seq<StepId>, city: City, x: string)
    requires Planned(original, plan, cp, ids)
    ensures Eligible(StartState(cp, city), x) <==> MayMove(original, plan, x)
  {
    PendingIffStuck(original, plan, cp, ids, x);
    if Stuck(original, plan, x) { EligibleIfStuck(original, plan, cp, ids, city, x); }
  }

  lemma EligibleIfStuck(original: City, plan: JointPlan, cp: ConstructionPlan, ids: seq<StepId>, city: City, x: string)
    requires Planned(original, plan, cp, ids) && Stuck(original, plan, x) && x in UnresolvedMoves(cp.unresolved)
    ensures Eligible(StartState(cp, city), x) <==> MayMove(original, plan, x)
  {
    var s, g := StartState(cp, city), DependencyGraph(original, plan);
    PendingWaits(original, plan, cp, ids, x);
    EligibleMeans(s, x, g[MoveId(x)]);
    MayMoveExactly(original, plan, x);
    forall d | d in g[MoveId(x)] ensures Provided(s, d) <==> NoHindrance(g, d) {
      DependencyDone(original, plan, cp, ids, city, x, d);
    }
  }

  /** Where the cells of a target meet those of a building that has not moved, the move waits. */
  lemma OverlapIsWaiting(original: City, target: City, i: nat, j: nat)
    requires UniqueIds(original.buildings) && UniqueIds(target.buildings)
    requires i < |target.buildings| && j < |original.buildings|
    requires target.buildings[i].spec.id != original.buildings[j].spec.id
    ensures Waits(original, target, MoveId(target.buildings[i].spec.id), MoveId(original.buildings[j].spec.id))
       <==> !Disjoint(original.buildings[j], target.buildings[i])
  {
    IndexOfUnique(target.buildings, i);
    IndexOfUnique(original.buildings, j);
    if Disjoint(original.buildings[j], target.buildings[i]) {
      assert target.buildings[i].Footprint() * original.buildings[j].Footprint() == {};
    } else if !Waits(original, target, MoveId(target.buildings[i].spec.id), MoveId(original.buildings[j].spec.id)) {
      NoWaitNoOverlap(original, target, i, j);
    }
  }

  /** The cells a pending move is bound for are those of its target. */
  lemma BoundForTarget(original: City, plan: JointPlan, cp: ConstructionPlan, ids: seq<StepId>, q: string)
    returns (i: nat)
    requires IsDiff(original, plan) && Planned(original, plan, cp, ids) && q in UnresolvedMoves(cp.unresolved)
    ensures i < |original.buildings| && original.buildings[i].spec.id == q
    ensures UnresolvedMoves(cp.unresolved)[q].destination.Some?
    ensures At(original, q, UnresolvedMoves(cp.unresolved)[q].destination.value) == plan.result.buildings[i].Footprint()
  {
    StartPending(original, plan, cp, ids);
    assert UnresolvedMoves(cp.unresolved)[q] == PlanStep(original, plan, MoveId(q));
    i := MoveStepOf(original, plan, q);
    AtIs(original, i, plan.result.buildings[i].origin);
    assert original.buildings[i].(origin := plan.result.buildings[i].origin) == plan.result.buildings[i];
  }

  /** Where a building stands when the loop starts: moved by the prefix, or not yet. */
  lemma StandsAtStart(original: City, plan: JointPlan, cp: ConstructionPlan, ids: seq<StepId>, j: nat)
    requires IsDiff(original, plan) && Planned(original, plan, cp, ids) && j < |original.buildings|
    ensures var b := original.buildings[j].spec.id;
      var s := StartState(cp, MapAfter(original, plan.result, Elements(ids)));
      && b in s.pos
      && At(original, b, s.pos[b]) ==
           if b in s.pending then original.buildings[j].Footprint() else plan.result.buildings[j].Footprint()
  {
    var b, s := original.buildings[j].spec.id, StartState(cp, MapAfter(original, plan.result, Elements(ids)));
    PositionsOfMapAfter(original, plan.result, Elements(ids));
    PositionAfter(original, plan.result, Elements(ids), j);
    StartPending(original, plan, cp, ids);
    StartSettled(original, plan, cp, ids);
    AtIs(original, j, s.pos[b]);
    if b in s.pending {
      assert s.pending[b] == PlanStep(original, plan, MoveId(b));
      assert original.buildings[j].(origin := original.buildings[j].origin) == original.buildings[j];
    } else {
      assert StandsAt(s.pos, b, plan.result.buildings[j].origin);
      assert original.buildings[j].(origin := plan.result.buildings[j].origin) == plan.result.buildings[j];
    }
  }

  /** At the start one building blocks another exactly when their moves wait for each other so. */
  lemma BlocksAtStart(original: City, plan: JointPlan, cp: ConstructionPlan, ids: seq<StepId>, q: string, b: string)
    requires IsDiff(original, plan) && Planned(original, plan, cp, ids)
    ensures var city := MapAfter(original, plan.result, Elements(ids));
      Blocks(StagingEnv(original, plan, city), StartState(cp, city), q, b) <==> HoldsBack(original, plan, q, b)
  {
    var city := MapAfter(original, plan.result, Elements(ids));
    PendingIffStuck(original, plan, cp, ids, q);
    PendingIffStuck(original, plan, cp, ids, b);
    PositionsOfMapAfter(original, plan.result, Elements(ids));
    if q in UnresolvedMoves(cp.unresolved) && q != b && b in PositionsOf(city) {
      var j :| 0 <= j < |original.buildings| && original.buildings[j].spec.id == b;
      PairAtStart(original, plan, cp, ids, q, j);
    } else if HoldsBack(original, plan, q, b) {
      Edge(original, plan, MoveId(q), MoveId(b));
      var j := MoveStepOf(original, plan, b);
    }
  }

  lemma PairAtStart(original: City, plan: JointPlan, cp: ConstructionPlan, ids: seq<StepId>, q: string, j: nat)
    requires IsDiff(original, plan) && Planned(original, plan, cp, ids) && j < |original.buildings|
    requires q in UnresolvedMoves(cp.unresolved) && q != original.buildings[j].spec.id
    ensures var city := MapAfter(original, plan.result, Elements(ids));
      Blocks(StagingEnv(original, plan, city), StartState(cp, city), q, original.buildings[j].spec.id)
      <==> HoldsBack(original, plan, q, original.buildings[j].spec.id)
  {
    var b := original.buildings[j].spec.id;
    PendingIffStuck(original, plan, cp, ids, q);
    PendingIffStuck(original, plan, cp, ids, b);
    var i := BoundForTarget(original, plan, cp, ids, q);
    StandsAtStart(original, plan, cp, ids, j);
    assert plan.result.buildings[i].spec.id == q;
    if Stuck(original, plan, b) {
      Edge(original, plan, MoveId(q), MoveId(b));
      OverlapIsWaiting(original, plan.result, i, j);
    } else {
      TargetsDisjoint(plan.result, i, j);
    }
  }

  lemma KnotAtStart(original: City, plan: JointPlan, cp: ConstructionPlan, ids: seq<StepId>, x: string, w: seq<string>)
    requires IsDiff(original, plan) && Planned(original, plan, cp, ids)
    ensures var city := MapAfter(original, plan.result, Elements(ids));
      Knot(StagingEnv(original, plan, city), StartState(cp, city), x, w) <==> PlanKnot(original, plan, x, w)
  {
    var city := MapAfter(original, plan.result, Elements(ids));
    var env, s := StagingEnv(original, plan, city), StartState(cp, city);
    forall i | 0 <= i < |w| - 1 ensures Link(env, s, x, w, i) <==> PlanLink(original, plan, x, w, i) {
      BlocksAtStart(original, plan, cp, ids, w[i], w[i + 1]);
      EligibleAtStart(original, plan, cp, ids, city, w[i + 1]);
    }
    if w != [] { EligibleAtStart(original, plan, cp, ids, city, w[|w| - 1]); }
  }

  /** Whether the loop starts untangled can be read off the plan. */
  lemma UntangledAtStart(original: City, plan: JointPlan, cp: ConstructionPlan, ids: seq<StepId>)
    requires IsDiff(original, plan) && Planned(original, plan, cp, ids)
    ensures var city := MapAfter(original, plan.result, Elements(ids));
      Untangled(StagingEnv(original, plan, city), StartState(cp, city)) <==> PlanUntangled(original, plan)
  {
    var city := MapAfter(original, plan.result, Elements(ids));
    forall x ensures Eligible(StartState(cp, city), x) <==> MayMove(original, plan, x) {
      EligibleAtStart(original, plan, cp, ids, city, x);
    }
    forall x, w
      ensures Knot(StagingEnv(original, plan, city), StartState(cp, city), x, w) <==> PlanKnot(original, plan, x, w)
    {
      KnotAtStart(original, plan, cp, ids, x, w);
    }
    SameKnots(StagingEnv(original, plan, city), StartState(cp, city), original, plan);
  }

  lemma SameKnots(env: Env, s: StagingState, original: City, plan: JointPlan)
    requires forall x {:trigger Eligible(s, x)} :: Eligible(s, x) <==> MayMove(original, plan, x)
    requires forall x, w {:trigger Knot(env, s, x, w)} {:trigger PlanKnot(original, plan, x, w)} ::
      Knot(env, s, x, w) <==> PlanKnot(original, plan, x, w)
    ensures Untangled(env, s) <==> PlanUntangled(original, plan)
  {
    if Untangled(env, s) {
      forall x, w | MayMove(original, plan, x) ensures !PlanKnot(original, plan, x, w) {
        assert Eligible(s, x);
        assert !Knot(env, s, x, w);
      }
    }
  }

  /** The state the loop starts in, for a buildable difference. */
  function StartOf(original: City, plan: JointPlan, cp: ConstructionPlan, ids: seq<StepId>): StagingState {
    StartState(cp, MapAfter(original, plan.result, Elements(ids)))
  }

  function EnvOf(original: City, plan: JointPlan, ids: seq<StepId>): Env {
    StagingEnv(original, plan, MapAfter(original, plan.result, Elements(ids)))
  }

  lemma StartIsAimed(original: City, plan: JointPlan, cp: ConstructionPlan, ids: seq<StepId>)
    requires IsDiff(original, plan) && Planned(original, plan, cp, ids)
    ensures Aimed(EnvOf(original, plan, ids), StartOf(original, plan, cp, ids))
      && TargetsApart(EnvOf(original, plan, ids))
  {
    StartPending(original, plan, cp, ids);
    PositionsOfMapAfter(original, plan.result, Elements(ids));
    PlannedIsAimed(original, plan, EnvOf(original, plan, ids), ids, StartOf(original, plan, cp, ids));
    DiffTargetsApart(original, plan, EnvOf(original, plan, ids));
  }

  lemma DiffTargetsApart(original: City, plan: JointPlan, env: Env)
    requires IsDiff(original, plan) && env.target == plan.result
    ensures TargetsApart(env)
  {
  }

  /**
   Told from the plan alone: the staging loop stands still only if the plan is tangled, and
   brings everybody home who may move only if it is not. One of the two happens unless the
   loop ends at a pivot without a legal place.
   */
  lemma LoopEndsAsPlanned(original: City, plan: JointPlan, cp: ConstructionPlan, ids: seq<StepId>, t: StagingState)
    requires IsDiff(original, plan) && Planned(original, plan, cp, ids)
    requires RunTo(EnvOf(original, plan, ids), StartOf(original, plan, cp, ids), t)
    ensures Stutters(EnvOf(original, plan, ids), t) ==> !PlanUntangled(original, plan)
    ensures AllMoved(t) ==> PlanUntangled(original, plan)
    ensures Halted(EnvOf(original, plan, ids), t) <==> AllMoved(t) || Cornered(EnvOf(original, plan, ids), t)
  {
    StartIsAimed(original, plan, cp, ids);
    RunsAsTangled(EnvOf(original, plan, ids), StartOf(original, plan, cp, ids), t);
    UntangledAtStart(original, plan, cp, ids);
    HaltedExactly(EnvOf(original, plan, ids), t);
  }
}
