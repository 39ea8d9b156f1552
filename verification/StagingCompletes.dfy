/** When the staging solver leaves nothing unresolved. */
module StagingCompletes {
  import opened CityMap
  import opened Construction
  import opened Topology
  import opened Planner
  import opened Buildability
  import opened StagingModel
  import opened StagingProgress
  import opened StagingSafety
  import opened StagingEnd
  import opened StagingKnots
  import opened StagingSolver
  import opened PlanKnots
  import opened EndToEnd

  // ---- Every step is accounted for ---------------------------------------------------

  /** What is ordered is completed, and every move is completed or still pending. */
  ghost predicate Accounted(plan: JointPlan, ids: seq<StepId>, s: StagingState) {
    && (forall a {:trigger a in s.completed} :: a in ids ==> a in s.completed)
    && (forall x {:trigger MoveId(x)} :: MoveId(x) in Steps(plan) ==> x in s.pending || MoveId(x) in s.completed)
  }

  lemma AccountedKept(env: Env, plan: JointPlan, ids: seq<StepId>, s: StagingState, t: StagingState)
    requires Aimed(env, s) && Accounted(plan, ids, s) && Next(env, s, t)
    ensures Accounted(plan, ids, t)
  {
    if id :| GoesHome(env, s, id, t) {
      assert AimedMove(env, id, s.pending[id]);
      AccountedAfterHome(plan, ids, s, id);
    } else {
      var id, cell :| StepsAside(env, s, id, cell, t);
      AccountedAfterStage(plan, ids, s, id, cell);
    }
  }

  lemma AccountedAfterHome(plan: JointPlan, ids: seq<StepId>, s: StagingState, id: string)
    requires Accounted(plan, ids, s) && id in s.pending && id in s.pos
    requires s.pending[id].destination.Some? && s.pending[id].id == MoveId(id)
    ensures Accounted(plan, ids, Home(s, id))
  {
    var t := Home(s, id);
    assert t.completed == s.completed + {MoveId(id)} && t.pending.Keys == s.pending.Keys - {id};
  }

  lemma AccountedAfterStage(plan: JointPlan, ids: seq<StepId>, s: StagingState, id: string, cell: Point)
    requires Accounted(plan, ids, s) && id in s.pos
    ensures Accounted(plan, ids, Stage(s, id, cell))
  {
  }

  ghost predicate AimedAccounted(env: Env, plan: JointPlan, ids: seq<StepId>, s: StagingState) {
    Aimed(env, s) && Accounted(plan, ids, s)
  }

  lemma AimedAccountedKept(env: Env, plan: JointPlan, ids: seq<StepId>, s: StagingState, t: StagingState)
    requires AimedAccounted(env, plan, ids, s) && Next(env, s, t)
    ensures AimedAccounted(env, plan, ids, t)
  {
    AimedKept(env, s, t);
    AccountedKept(env, plan, ids, s, t);
  }

  lemma AccountedAlong(env: Env, plan: JointPlan, ids: seq<StepId>, trace: seq<StagingState>, k: nat)
    requires Run(env, trace) && AimedAccounted(env, plan, ids, trace[0]) && k < |trace|
    ensures AimedAccounted(env, plan, ids, trace[k])
  {
    forall j | 0 < j <= k && AimedAccounted(env, plan, ids, trace[j - 1])
      ensures AimedAccounted(env, plan, ids, trace[j])
    {
      assert Turn(env, trace, j - 1);
      AimedAccountedKept(env, plan, ids, trace[j - 1], trace[j]);
    }
    RunInvariant(trace, k, s => AimedAccounted(env, plan, ids, s));
  }

  lemma StartIsAccounted(original: City, plan: JointPlan, cp: ConstructionPlan, ids: seq<StepId>, city: City)
    requires Planned(original, plan, cp, ids)
    ensures Accounted(plan, ids, StartState(cp, city))
  {
    var s := StartState(cp, city);
    forall a | a in ids ensures a in s.completed { CompletedAtStart(original, plan, cp, ids, a); }
    forall x | MoveId(x) in Steps(plan) ensures x in s.pending || MoveId(x) in s.completed {
      if MoveId(x) in ids { CompletedAtStart(original, plan, cp, ids, MoveId(x)); }
      else { UnorderedMoveIsPending(original, plan, cp, ids, x); }
    }
  }

  // ---- The road steps follow ---------------------------------------------------------

  /** Every move and every ordered step is completed. */
  ghost predicate MovesDone(plan: JointPlan, ids: seq<StepId>, completed: set<StepId>) {
    forall a {:trigger a in completed} :: a in Steps(plan) && (a.MoveId? || a in ids) ==> a in completed
  }

  lemma AdditionFollows(original: City, plan: JointPlan, ids: seq<StepId>, completed: set<StepId>, a: StepId,
                        done: set<StepId>)
    requires MovesDone(plan, ids, completed) && completed <= done && a in Steps(plan) && a.AddId?
    ensures DependenciesDone(PlanStep(original, plan, a), done)
  {
    forall d | d in PlanStep(original, plan, a).dependsOn ensures d in done { PlanStepWaits(original, plan, a, d); }
  }

  lemma RemovalFollows(original: City, plan: JointPlan, ids: seq<StepId>, completed: set<StepId>, a: StepId,
                       done: set<StepId>)
    requires MovesDone(plan, ids, completed) && completed <= done && a in Steps(plan) && a.RemoveId?
    requires forall d :: d in Steps(plan) && d.AddId? ==> d in done
    ensures DependenciesDone(PlanStep(original, plan, a), done)
  {
    forall d | d in PlanStep(original, plan, a).dependsOn ensures d in done { PlanStepWaits(original, plan, a, d); }
  }

  lemma OtherIsPlanned(original: City, plan: JointPlan, cp: ConstructionPlan, ids: seq<StepId>, a: StepId)
    requires Planned(original, plan, cp, ids) && a in OtherSteps(cp.unresolved)
    ensures a in Steps(plan) && (a.AddId? || a.RemoveId?) && OtherSteps(cp.unresolved)[a] == PlanStep(original, plan, a)
  {
    TailStepIsRoad(original, plan, cp, ids, OtherSteps(cp.unresolved)[a]);
    StepIsPlain(plan, a);
  }

  lemma StepIsPlain(plan: JointPlan, a: StepId)
    requires a in Steps(plan)
    ensures !a.StageId?
  {
    if a !in MoveSteps(plan.moves) { EditStepsOrigin(plan.edits, a); }
  }

  /** With all moves done the road steps all follow. */
  lemma NoStepLeft(original: City, plan: JointPlan, cp: ConstructionPlan, ids: seq<StepId>, completed: set<StepId>,
                    tail: seq<Step>, left: set<StepId>)
    requires Planned(original, plan, cp, ids) && MovesDone(plan, ids, completed)
    requires TailOf(OtherSteps(cp.unresolved), completed, tail, left)
    ensures left == {}
  {
    var others, done := OtherSteps(cp.unresolved), completed + Elements(StepIds(tail));
    forall a | a in Steps(plan) && a.AddId? ensures a in done {
      if a !in ids { AdditionTaken(original, plan, cp, ids, completed, tail, left, a); }
    }
    forall a | a in others ensures a !in left {
      OtherIsPlanned(original, plan, cp, ids, a);
      if a.AddId? { AdditionFollows(original, plan, ids, completed, a, done); }
      else { RemovalFollows(original, plan, ids, completed, a, done); }
    }
  }

  lemma AdditionTaken(original: City, plan: JointPlan, cp: ConstructionPlan, ids: seq<StepId>, completed: set<StepId>,
                      tail: seq<Step>, left: set<StepId>, a: StepId)
    requires Planned(original, plan, cp, ids) && MovesDone(plan, ids, completed)
    requires TailOf(OtherSteps(cp.unresolved), completed, tail, left)
    requires a in Steps(plan) && a.AddId? && a !in ids
    ensures a in Elements(StepIds(tail))
  {
    RoadLeftOutIsOther(original, plan, cp, ids, a);
    OtherIsPlanned(original, plan, cp, ids, a);
    AdditionFollows(original, plan, ids, completed, a, completed + Elements(StepIds(tail)));
  }

  /** Without cyclic moves nothing is cyclic: every cycle leads through a move. */
  lemma NoMoveNoneUnresolved(original: City, plan: JointPlan, cp: ConstructionPlan, ids: seq<StepId>)
    requires Planned(original, plan, cp, ids) && UnresolvedMoves(cp.unresolved) == map[]
    ensures cp.unresolved == []
  {
    var others := OtherSteps(cp.unresolved);
    forall a | a in Steps(plan) && a.MoveId? ensures a in ids {
      if a !in ids { UnorderedMoveIsPending(original, plan, cp, ids, a.building); }
    }
    forall a | a in Steps(plan) && a.AddId? ensures a in ids {
      AdditionFollows(original, plan, ids, Elements(ids), a, Elements(ids));
      FreeIsOrdered(original, plan, cp, ids, a);
    }
    forall a | a in Steps(plan) ensures a in ids {
      StepIsPlain(plan, a);
      if a.RemoveId? {
        RemovalFollows(original, plan, ids, Elements(ids), a, Elements(ids));
        FreeIsOrdered(original, plan, cp, ids, a);
      }
    }
    AllOrdered(original, plan, cp, ids);
  }

  lemma FreeIsOrdered(original: City, plan: JointPlan, cp: ConstructionPlan, ids: seq<StepId>, a: StepId)
    requires Planned(original, plan, cp, ids) && a in Steps(plan)
      && DependenciesDone(PlanStep(original, plan, a), Elements(ids))
    ensures a in ids
  {
    forall d | d in DependencyGraph(original, plan)[a]
      ensures d in Elements(ids)
    {
      PlanStepWaits(original, plan, a, d);
    }
  }

  lemma AllOrdered(original: City, plan: JointPlan, cp: ConstructionPlan, ids: seq<StepId>)
    requires Planned(original, plan, cp, ids) && forall a :: a in Steps(plan) ==> a in ids
    ensures cp.unresolved == []
  {
    var g := DependencyGraph(original, plan);
    assert forall a :: a !in Remainder(g, ids);
    HeadOf(Remainder(g, ids));
  }

  lemma HeadOf(s: seq<StepId>)
    ensures s == [] || s[0] in s
  {
  }

  // ---- Fully resolved ----------------------------------------------------------------

  lemma LeftoverEmpty(pending: map<string, Step>, others: map<StepId, Step>)
    requires pending == map[]
    ensures Leftover(pending, others, {}) == []
  {
    assert (set id | id in pending :: MoveId(id)) + {} == {};
  }

  /** The answer's run is one of the loop's, from the plan's start. */
  lemma AnswerRuns(original: City, plan: JointPlan, cp: ConstructionPlan, ids: seq<StepId>,
                   r: Resolution, trace: seq<StagingState>, tail: seq<Step>, left: set<StepId>)
    requires IsDiff(original, plan) && Buildable(original, plan.result) && Planned(original, plan, cp, ids)
    requires Answers(original, plan, cp, r, trace, tail, left) && UnresolvedMoves(cp.unresolved) != map[]
    ensures trace != []
      && Traces(EnvOf(original, plan, ids), trace, StartOf(original, plan, cp, ids), trace[|trace| - 1])
    ensures if r.RunsForever? then Stutters(EnvOf(original, plan, ids), trace[|trace| - 1])
            else r.Resolved? && Halted(EnvOf(original, plan, ids), trace[|trace| - 1])
  {
    PlannedMoversKnown(original, plan, cp, ids);
    PrefixCity(original, plan, cp, ids);
  }

  lemma HomeAccounted(original: City, plan: JointPlan, cp: ConstructionPlan, ids: seq<StepId>, trace: seq<StagingState>)
    requires IsDiff(original, plan) && Planned(original, plan, cp, ids) && trace != []
    requires Traces(EnvOf(original, plan, ids), trace, StartOf(original, plan, cp, ids), trace[|trace| - 1])
    requires trace[|trace| - 1].pending == map[]
    ensures MovesDone(plan, ids, trace[|trace| - 1].completed)
  {
    StartIsAimedAccounted(original, plan, cp, ids);
    EndAccounted(EnvOf(original, plan, ids), plan, ids, trace);
  }

  lemma StartIsAimedAccounted(original: City, plan: JointPlan, cp: ConstructionPlan, ids: seq<StepId>)
    requires IsDiff(original, plan) && Planned(original, plan, cp, ids)
    ensures AimedAccounted(EnvOf(original, plan, ids), plan, ids, StartOf(original, plan, cp, ids))
  {
    StartIsAimed(original, plan, cp, ids);
    StartIsAccounted(original, plan, cp, ids, MapAfter(original, plan.result, Elements(ids)));
  }

  lemma EndAccounted(env: Env, plan: JointPlan, ids: seq<StepId>, trace: seq<StagingState>)
    requires Run(env, trace) && AimedAccounted(env, plan, ids, trace[0]) && trace[|trace| - 1].pending == map[]
    ensures MovesDone(plan, ids, trace[|trace| - 1].completed)
  {
    AccountedAlong(env, plan, ids, trace, |trace| - 1);
    AccountedHome(plan, ids, trace[|trace| - 1]);
  }

  lemma AccountedHome(plan: JointPlan, ids: seq<StepId>, s: StagingState)
    requires Accounted(plan, ids, s) && s.pending == map[]
    ensures MovesDone(plan, ids, s.completed)
  {
    forall a | a in Steps(plan) && a.MoveId? ensures a in s.completed { assert a == MoveId(a.building); }
  }

  /** Whenever the loop brings everybody home the solver leaves nothing unresolved. */
  lemma HomeIsResolved(original: City, plan: JointPlan, cp: ConstructionPlan, ids: seq<StepId>,
                       r: Resolution, trace: seq<StagingState>, tail: seq<Step>, left: set<StepId>)
    requires IsDiff(original, plan) && Buildable(original, plan.result) && Planned(original, plan, cp, ids)
    requires Answers(original, plan, cp, r, trace, tail, left) && UnresolvedMoves(cp.unresolved) != map[]
    requires r.Resolved? && trace != [] && trace[|trace| - 1].pending == map[]
    ensures r.plan.unresolved == []
  {
    AnswerRuns(original, plan, cp, ids, r, trace, tail, left);
    HomeAccounted(original, plan, cp, ids, trace);
    PlannedMoversKnown(original, plan, cp, ids);
    PrefixCity(original, plan, cp, ids);
    NoStepLeft(original, plan, cp, ids, trace[|trace| - 1].completed, tail, left);
    LeftoverEmpty(trace[|trace| - 1].pending, OtherSteps(cp.unresolved));
  }

  /** An acyclic difference is resolved as it is. */
  lemma AcyclicIsResolved(original: City, plan: JointPlan, cp: ConstructionPlan, ids: seq<StepId>,
                          r: Resolution, trace: seq<StagingState>, tail: seq<Step>, left: set<StepId>)
    requires Planned(original, plan, cp, ids) && Answers(original, plan, cp, r, trace, tail, left)
    requires forall x :: !Stuck(original, plan, x)
    ensures r == Resolved(cp, []) && cp.unresolved == []
  {
    forall x ensures x !in UnresolvedMoves(cp.unresolved) { PendingIffStuck(original, plan, cp, ids, x); }
    assert UnresolvedMoves(cp.unresolved) == map[];
    NoMoveNoneUnresolved(original, plan, cp, ids);
  }

  /** Everybody pending can move. */
  ghost predicate AllEligible(s: StagingState) {
    forall x {:trigger Eligible(s, x)} :: x in s.pending ==> Eligible(s, x)
  }

  ghost predicate AimedEligible(env: Env, s: StagingState) {
    Aimed(env, s) && AllEligible(s)
  }

  lemma AllEligibleKept(env: Env, s: StagingState, t: StagingState)
    requires AimedEligible(env, s) && Next(env, s, t)
    ensures AimedEligible(env, t)
  {
    AimedKept(env, s, t);
    if id :| GoesHome(env, s, id, t) {
      forall x | x in t.pending ensures Eligible(t, x) { assert Eligible(s, x); EligibleAfterHome(s, id, x); }
    } else {
      var id, cell :| StepsAside(env, s, id, cell, t);
      forall x | x in t.pending
        ensures Eligible(t, x)
      {
        assert Eligible(s, x);
        EligibleAfterStage(env, s, id, cell, x);
      }
    }
  }

  lemma AllEligibleAlong(env: Env, trace: seq<StagingState>, k: nat)
    requires Run(env, trace) && AimedEligible(env, trace[0]) && k < |trace|
    ensures AimedEligible(env, trace[k])
  {
    forall j | 0 < j <= k && AimedEligible(env, trace[j - 1]) ensures AimedEligible(env, trace[j]) {
      assert Turn(env, trace, j - 1);
      AllEligibleKept(env, trace[j - 1], trace[j]);
    }
    RunInvariant(trace, k, s => AimedEligible(env, s));
  }

  lemma AllMovedIsHome(original: City, plan: JointPlan, cp: ConstructionPlan, ids: seq<StepId>,
                       trace: seq<StagingState>)
    requires IsDiff(original, plan) && Planned(original, plan, cp, ids) && trace != []
    requires Traces(EnvOf(original, plan, ids), trace, StartOf(original, plan, cp, ids), trace[|trace| - 1])
    requires PureCycles(original, plan) && AllMoved(trace[|trace| - 1])
    ensures trace[|trace| - 1].pending == map[]
  {
    StartIsAimed(original, plan, cp, ids);
    forall x | x in trace[0].pending ensures Eligible(trace[0], x) {
      PendingIffStuck(original, plan, cp, ids, x);
      EligibleAtStart(original, plan, cp, ids, MapAfter(original, plan.result, Elements(ids)), x);
    }
    AllEligibleAlong(EnvOf(original, plan, ids), trace, |trace| - 1);
    NobodyPending(trace[|trace| - 1]);
  }

  lemma NobodyPending(s: StagingState)
    requires AllEligible(s) && AllMoved(s)
    ensures s.pending == map[]
  {
    forall x ensures x !in s.pending { assert Eligible(s, x) == false; }
  }

  /** What is pending when the loop ends stays unresolved. */
  lemma StillPending(original: City, plan: JointPlan, cp: ConstructionPlan, r: Resolution,
                     trace: seq<StagingState>, tail: seq<Step>, left: set<StepId>)
    requires Answers(original, plan, cp, r, trace, tail, left) && r.Resolved? && trace != []
    requires UnresolvedMoves(cp.unresolved) != map[] && trace[|trace| - 1].pending != map[]
    ensures r.plan.unresolved != []
  {
    var end := trace[|trace| - 1];
    var x :| x in end.pending;
    assert MoveId(x) in (set id | id in end.pending :: MoveId(id)) + left;
  }

  /** A pending move that the loop will not start. */
  ghost predicate HeldBack(env: Env, x: string, s: StagingState) {
    Aimed(env, s) && x in s.pending && !Eligible(s, x)
  }

  lemma HeldBackAfterHome(env: Env, x: string, s: StagingState, id: string)
    requires x in s.pending && !Eligible(s, x) && id in s.pos && Ready(env, s, id)
    ensures x in Home(s, id).pending && !Eligible(Home(s, id), x)
  {
    EligibleAfterHome(s, id, x);
  }

  lemma StillHeldBack(env: Env, x: string, s: StagingState, t: StagingState)
    requires HeldBack(env, x, s) && Next(env, s, t)
    ensures x in t.pending && !Eligible(t, x)
  {
    if id :| GoesHome(env, s, id, t) {
      HeldBackAfterHome(env, x, s, id);
    } else {
      var id, cell :| StepsAside(env, s, id, cell, t);
      EligibleAfterStage(env, s, id, cell, x);
    }
  }

  lemma HeldBackKept(env: Env, x: string, s: StagingState, t: StagingState)
    requires HeldBack(env, x, s) && Next(env, s, t)
    ensures HeldBack(env, x, t)
  {
    AimedKept(env, s, t);
    StillHeldBack(env, x, s, t);
  }

  lemma HeldBackAlong(env: Env, x: string, trace: seq<StagingState>, k: nat)
    requires Run(env, trace) && HeldBack(env, x, trace[0]) && k < |trace|
    ensures HeldBack(env, x, trace[k])
  {
    forall j | 0 < j <= k && HeldBack(env, x, trace[j - 1]) ensures HeldBack(env, x, trace[j]) {
      assert Turn(env, trace, j - 1);
      HeldBackKept(env, x, trace[j - 1], trace[j]);
    }
    RunInvariant(trace, k, s => HeldBack(env, x, s));
  }

  /** A cyclic move that waits for a cyclic road is never resolved. */
  lemma HeldBackIsUnresolved(original: City, plan: JointPlan, cp: ConstructionPlan, ids: seq<StepId>, x: string,
                             r: Resolution, trace: seq<StagingState>, tail: seq<Step>, left: set<StepId>)
    requires IsDiff(original, plan) && Buildable(original, plan.result) && Planned(original, plan, cp, ids)
    requires Answers(original, plan, cp, r, trace, tail, left) && r.Resolved?
    requires Stuck(original, plan, x) && !MayMove(original, plan, x)
    ensures r.plan.unresolved != []
  {
    PendingIffStuck(original, plan, cp, ids, x);
    AnswerRuns(original, plan, cp, ids, r, trace, tail, left);
    HeldBackAtStart(original, plan, cp, ids, x);
    HeldBackAtEnd(EnvOf(original, plan, ids), x, trace);
    StillPending(original, plan, cp, r, trace, tail, left);
  }

  lemma HeldBackAtStart(original: City, plan: JointPlan, cp: ConstructionPlan, ids: seq<StepId>, x: string)
    requires IsDiff(original, plan) && Planned(original, plan, cp, ids)
    requires Stuck(original, plan, x) && !MayMove(original, plan, x)
    ensures HeldBack(EnvOf(original, plan, ids), x, StartOf(original, plan, cp, ids))
  {
    PendingIffStuck(original, plan, cp, ids, x);
    StartIsAimed(original, plan, cp, ids);
    EligibleAtStart(original, plan, cp, ids, MapAfter(original, plan.result, Elements(ids)), x);
  }

  lemma HeldBackAtEnd(env: Env, x: string, trace: seq<StagingState>)
    requires Run(env, trace) && HeldBack(env, x, trace[0])
    ensures trace[|trace| - 1].pending != map[]
  {
    HeldBackAlong(env, x, trace, |trace| - 1);
  }

  lemma ResolvedIsPure(original: City, plan: JointPlan, cp: ConstructionPlan, ids: seq<StepId>,
                       r: Resolution, trace: seq<StagingState>, tail: seq<Step>, left: set<StepId>)
    requires IsDiff(original, plan) && Buildable(original, plan.result) && Planned(original, plan, cp, ids)
    requires Answers(original, plan, cp, r, trace, tail, left) && r.Resolved? && r.plan.unresolved == []
    ensures PureCycles(original, plan)
  {
    forall x | Stuck(original, plan, x) ensures MayMove(original, plan, x) {
      if !MayMove(original, plan, x) { HeldBackIsUnresolved(original, plan, cp, ids, x, r, trace, tail, left); }
    }
  }

  /** The loop was needed and ended at a pivot without a legal place. */
  ghost predicate EndsCornered(original: City, plan: JointPlan, cp: ConstructionPlan, ids: seq<StepId>,
                               trace: seq<StagingState>)
  {
    UnresolvedMoves(cp.unresolved) != map[] && trace != [] && Cornered(EnvOf(original, plan, ids), trace[|trace| - 1])
  }

  lemma CorneredIsPending(env: Env, s: StagingState)
    requires Cornered(env, s)
    ensures s.pending != map[]
  {
    var p :| Pivot(s, p) && forall cell: Point :: !Legal(env, s.pos, p, cell);
    assert p in s.pending;
  }

  /**
   The solver runs for ever only on a tangled plan. It resolves a plan in full exactly when
   the plan is untangled, its cyclic moves wait for no cyclic road, and the loop does not end
   at a pivot without a legal place.
   */
  lemma UntangledIsResolved(original: City, plan: JointPlan, cp: ConstructionPlan, ids: seq<StepId>,
                            r: Resolution, trace: seq<StagingState>, tail: seq<Step>, left: set<StepId>)
    requires IsDiff(original, plan) && Buildable(original, plan.result) && Planned(original, plan, cp, ids)
    requires Answers(original, plan, cp, r, trace, tail, left)
    ensures r.RunsForever? ==> !PlanUntangled(original, plan)
    ensures r.Resolved? && r.plan.unresolved == [] <==>
      PlanUntangled(original, plan) && PureCycles(original, plan) && !EndsCornered(original, plan, cp, ids, trace)
  {
    if UnresolvedMoves(cp.unresolved) == map[] {
      NoMoveNoneUnresolved(original, plan, cp, ids);
      forall x ensures !Stuck(original, plan, x) { PendingIffStuck(original, plan, cp, ids, x); }
    } else {
      AnswerRuns(original, plan, cp, ids, r, trace, tail, left);
      LoopEndsAsPlanned(original, plan, cp, ids, trace[|trace| - 1]);
      if r.Resolved? && AllMoved(trace[|trace| - 1]) && PureCycles(original, plan) {
        AllMovedIsHome(original, plan, cp, ids, trace);
        HomeIsResolved(original, plan, cp, ids, r, trace, tail, left);
      }
      if r.Resolved? && r.plan.unresolved == [] {
        ResolvedIsHome(original, plan, cp, ids, r, trace, tail, left);
      }
    }
  }

  lemma ResolvedIsHome(original: City, plan: JointPlan, cp: ConstructionPlan, ids: seq<StepId>,
                       r: Resolution, trace: seq<StagingState>, tail: seq<Step>, left: set<StepId>)
    requires IsDiff(original, plan) && Buildable(original, plan.result) && Planned(original, plan, cp, ids)
    requires Answers(original, plan, cp, r, trace, tail, left) && UnresolvedMoves(cp.unresolved) != map[]
    requires r.Resolved? && r.plan.unresolved == []
    ensures trace != [] && AllMoved(trace[|trace| - 1]) && PureCycles(original, plan)
    ensures !EndsCornered(original, plan, cp, ids, trace)
  {
    AnswerRuns(original, plan, cp, ids, r, trace, tail, left);
    ResolvedIsPure(original, plan, cp, ids, r, trace, tail, left);
    var end := trace[|trace| - 1];
    if end.pending != map[] { StillPending(original, plan, cp, r, trace, tail, left); }
    if Cornered(EnvOf(original, plan, ids), end) { CorneredIsPending(EnvOf(original, plan, ids), end); }
  }
}
