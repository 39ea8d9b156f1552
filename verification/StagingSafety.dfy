/** Staged plans carry out the target: every step applies and the last map is the target. */
module StagingSafety {
  import opened Wrappers
  import opened Orders
  import opened CityMap
  import opened Construction
  import opened Topology
  import opened Planner
  import opened Buildability
  import opened PlanReplay
  import opened StagingModel
  import opened StagingProgress

  // ---- Where the loop starts ---------------------------------------------------------

  predicate IsMove(step: Step) {
    step.kind == MoveBuilding && step.building.Some?
  }

  /** The unresolved moves by building. */
  function UnresolvedMoves(steps: seq<Step>): (pending: map<string, Step>)
    ensures forall id ::
      id in pending ==> pending[id] in steps && IsMove(pending[id]) && pending[id].building == Some(id)
    ensures forall step :: step in steps && IsMove(step) ==> step.building.value in pending
  {
    if steps == [] then map[] else
      var front, last := steps[..|steps| - 1], steps[|steps| - 1];
      assert steps == front + [last];
      if IsMove(last) then UnresolvedMoves(front)[last.building.value := last] else UnresolvedMoves(front)
  }

  function PositionsOf(c: City): (pos: map<string, Point>)
    ensures pos.Keys == Ids(c.buildings)
  {
    map id | id in Ids(c.buildings) :: OriginOf(c, id)
  }

  function StartState(cp: ConstructionPlan, city: City): StagingState {
    StagingState(UnresolvedMoves(cp.unresolved), PositionsOf(city), cp.ordered, Elements(StepIds(cp.ordered)), [], 0)
  }

  function StagingEnv(original: City, plan: JointPlan, city: City): Env {
    Env(original, plan.result, city)
  }

  // ---- What every loop state keeps ---------------------------------------------------

  ghost predicate PendingPlanned(original: City, plan: JointPlan, ids: seq<StepId>, pending: map<string, Step>) {
    forall id {:trigger pending[id]} :: id in pending ==>
      MoveId(id) in Steps(plan) && MoveId(id) !in ids && pending[id] == PlanStep(original, plan, MoveId(id))
  }

  /** Whoever has no pending move stands at its target. */
  ghost predicate Settled(original: City, target: City, s: StagingState)
    requires SameCatalog(original, target)
  {
    forall i {:trigger original.buildings[i].spec.id in s.pending} ::
      0 <= i < |original.buildings| && original.buildings[i].spec.id !in s.pending ==>
        StandsAt(s.pos, original.buildings[i].spec.id, target.buildings[i].origin)
  }

  ghost predicate StandsAt(pos: map<string, Point>, id: string, o: Point) {
    id in pos && pos[id] == o
  }

  /** Beyond the ordered steps only moves have been completed. */
  ghost predicate OnlyMovesAdded(ids: seq<StepId>, completed: set<StepId>) {
    forall a :: a in completed ==> a in ids || a.MoveId? || a.StageId?
  }

  /** Running the steps so far leads to the loop's positions. */
  ghost predicate Leads(original: City, roads: set<Point>, s: StagingState) {
    && s.pos.Keys == Ids(original.buildings)
    && Place(original, s.pos, roads).Valid()
    && Replay(original, s.resolved) == Success(Place(original, s.pos, roads))
  }

  ghost predicate Recorded(s: StagingState) {
    DependenciesMet(s.resolved) && s.completed == Elements(StepIds(s.resolved))
  }

  ghost predicate Safe(original: City, plan: JointPlan, ids: seq<StepId>, s: StagingState)
    requires SameCatalog(original, plan.result)
  {
    && Leads(original, RoadsAfter(original, plan.result, Elements(ids)), s)
    && PendingPlanned(original, plan, ids, s.pending)
    && Settled(original, plan.result, s)
    && OnlyMovesAdded(ids, s.completed)
    && Recorded(s)
  }

  // ---- Bookkeeping -------------------------------------------------------------------

  lemma StepIdsPush(steps: seq<Step>, step: Step)
    ensures Elements(StepIds(steps + [step])) == Elements(StepIds(steps)) + {step.id}
  {
    assert StepIds(steps + [step]) == StepIds(steps) + [step.id];
    ElementsPush(StepIds(steps), step.id);
  }

  lemma DependenciesPush(steps: seq<Step>, step: Step)
    requires DependenciesMet(steps) && forall d :: d in step.dependsOn ==> d in Elements(StepIds(steps))
    ensures DependenciesMet(steps + [step])
  {
    var now := steps + [step];
    forall k | 0 <= k < |now| ensures DependsOnEarlier(now, k) {
      forall d | d in now[k].dependsOn ensures exists j :: 0 <= j < k && now[j].id == d {
        if k < |steps| {
          assert DependsOnEarlier(steps, k);
          var j :| 0 <= j < k && steps[j].id == d;
          assert now[j].id == d;
        } else {
          var j :| 0 <= j < |steps| && StepIds(steps)[j] == d;
          assert now[j].id == d;
        }
      }
    }
  }

  lemma RecordedPush(s: StagingState, t: StagingState, step: Step)
    requires Recorded(s) && step.dependsOn == []
    requires t.resolved == s.resolved + [step] && t.completed == s.completed + {step.id}
    ensures Recorded(t)
  {
    DependenciesPush(s.resolved, step);
    StepIdsPush(s.resolved, step);
  }

  // ---- One move of the loop on the map -----------------------------------------------

  lemma AtIs(c: City, i: nat, o: Point)
    requires UniqueIds(c.buildings) && i < |c.buildings|
    ensures At(c, c.buildings[i].spec.id, o) == c.buildings[i].(origin := o).Footprint()
  {
    IndexOfUnique(c.buildings, i);
  }

  /** Clear cells meet no other building of the placement. */
  lemma ClearIsDisjoint(c: City, pos: map<string, Point>, i: nat, j: nat, b: Building)
    requires UniqueIds(c.buildings) && Positions(c, pos) && i < |c.buildings| && j < |c.buildings| && i != j
    requires ClearOf(c, pos, c.buildings[i].spec.id, b.Footprint())
    ensures Disjoint(c.buildings[j].(origin := pos[c.buildings[j].spec.id]), b)
  {
    var other := c.buildings[j].spec.id;
    AtIs(c, j, pos[other]);
    assert At(c, other, pos[other]) !! b.Footprint();
  }

  /** The loop's move, replayed: it applies when the new placement is legal and on a road. */
  lemma LeadsOn(original: City, roads: set<Point>, s: StagingState, t: StagingState, i: nat, step: Step)
    requires Leads(original, roads, s) && i < |original.buildings|
    requires step.kind == MoveBuilding && step.building == Some(original.buildings[i].spec.id)
    requires step.source == Some(s.pos[original.buildings[i].spec.id]) && step.destination.Some?
    requires t.pos == s.pos[original.buildings[i].spec.id := step.destination.value]
    requires t.resolved == s.resolved + [step]
    requires original.buildings[i].spec.movable && Place(original, t.pos, roads).Valid()
    requires Place(original, t.pos, roads).buildings[i].Touches(roads)
    ensures Leads(original, roads, t)
  {
    MoveApplies(original, s.pos, roads, i, step);
    ReplayExtend(original, s.resolved, step);
    assert original.buildings[i].spec.id in Ids(original.buildings);
    assert t.pos.Keys == s.pos.Keys;
  }

  // ---- Going home --------------------------------------------------------------------

  lemma RoadsThereForHome(original: City, plan: JointPlan, ids: seq<StepId>, s: StagingState, id: string, i: nat)
    requires IsDiff(original, plan) && Ordered(DependencyGraph(original, plan), ids)
    requires PendingPlanned(original, plan, ids, s.pending) && OnlyMovesAdded(ids, s.completed)
    requires Eligible(s, id) && i < |original.buildings| && original.buildings[i].spec.id == id
    requires plan.result.buildings[i].Touches(original.roads + plan.result.roads)
    ensures plan.result.buildings[i].Touches(RoadsAfter(original, plan.result, Elements(ids)))
  {
    var g, done := DependencyGraph(original, plan), Elements(ids);
    OrderedPrefixClosed(g, ids, |ids|);
    Whole(ids);
    RoadsKeptUntilMovesDone(original, plan, done, id);
    forall p | AddId(p) in g[MoveId(id)] ensures AddId(p) in done {
      assert AddId(p) in s.pending[id].dependsOn;
      if AddId(p) in PendingIds(s) {
        var x :| x in s.pending && s.pending[x].id == AddId(p);
        StepsKeyed(plan, MoveId(x));
      }
    }
    AccessInTime(original, plan, done, i);
  }

  lemma HomeIsLegal(original: City, plan: JointPlan, ids: seq<StepId>, s: StagingState, id: string, i: nat)
    requires IsDiff(original, plan) && Leads(original, RoadsAfter(original, plan.result, Elements(ids)), s)
    requires i < |original.buildings| && original.buildings[i].spec.id == id
    requires CanArrive(original, plan.result, i)
    requires ClearOf(original, s.pos, id, At(original, id, plan.result.buildings[i].origin))
    ensures var pos := s.pos[id := plan.result.buildings[i].origin];
      var next := Place(original, pos, RoadsAfter(original, plan.result, Elements(ids)));
      next.Valid() && next.buildings[i] == plan.result.buildings[i]
  {
    AtIs(original, i, plan.result.buildings[i].origin);
    assert original.buildings[i].(origin := plan.result.buildings[i].origin) == plan.result.buildings[i];
    forall j | 0 <= j < |original.buildings| && j != i
      ensures Disjoint(original.buildings[j].(origin := s.pos[original.buildings[j].spec.id]), plan.result.buildings[i])
    {
      ClearIsDisjoint(original, s.pos, i, j, plan.result.buildings[i]);
    }
    RoadsAfterBounded(original, plan, Elements(ids));
    ArrivalIsLegal(original, plan.result, s.pos, RoadsAfter(original, plan.result, Elements(ids)), i);
  }

  lemma HomeKeepsBooks(original: City, plan: JointPlan, ids: seq<StepId>, s: StagingState, id: string)
    requires PendingPlanned(original, plan, ids, s.pending) && OnlyMovesAdded(ids, s.completed) && Recorded(s)
    requires id in s.pending && id in s.pos && s.pending[id].destination.Some?
    ensures var t := Home(s, id);
      PendingPlanned(original, plan, ids, t.pending) && OnlyMovesAdded(ids, t.completed) && Recorded(t)
  {
    var t := Home(s, id);
    StepsKeyed(plan, MoveId(id));
    RecordedPush(s, t, s.pending[id].(source := Some(s.pos[id]), dependsOn := []));
    assert forall x :: x in t.pending ==> t.pending[x] == s.pending[x];
  }

  lemma HomeLeads(original: City, plan: JointPlan, ids: seq<StepId>, env: Env, s: StagingState, id: string, i: nat)
    requires IsDiff(original, plan) && Ordered(DependencyGraph(original, plan), ids)
    requires Leads(original, RoadsAfter(original, plan.result, Elements(ids)), s)
    requires PendingPlanned(original, plan, ids, s.pending) && OnlyMovesAdded(ids, s.completed)
    requires env.original == original && id in s.pos && Ready(env, s, id)
    requires i < |original.buildings| && original.buildings[i].spec.id == id && CanArrive(original, plan.result, i)
    requires s.pending[id].destination == Some(plan.result.buildings[i].origin)
    ensures Leads(original, RoadsAfter(original, plan.result, Elements(ids)), Home(s, id))
  {
    RoadsThereForHome(original, plan, ids, s, id, i);
    HomeIsLegal(original, plan, ids, s, id, i);
    StepsKeyed(plan, MoveId(id));
    var step := s.pending[id].(source := Some(s.pos[id]), dependsOn := []);
    LeadsOn(original, RoadsAfter(original, plan.result, Elements(ids)), s, Home(s, id), i, step);
  }

  lemma HomeIsSafe(original: City, plan: JointPlan, ids: seq<StepId>, env: Env, s: StagingState, id: string)
    requires IsDiff(original, plan) && Buildable(original, plan.result)
    requires Ordered(DependencyGraph(original, plan), ids)
    requires Safe(original, plan, ids, s) && env.original == original && id in s.pos && Ready(env, s, id)
    ensures Safe(original, plan, ids, Home(s, id))
  {
    var i := PendingIsMovable(original, plan, ids, s.pending, id);
    HomeLeads(original, plan, ids, env, s, id, i);
    HomeKeepsBooks(original, plan, ids, s, id);
    SettledAfterHome(original, plan.result, s, id, i);
  }

  lemma SettledAfterHome(original: City, target: City, s: StagingState, id: string, i: nat)
    requires SameCatalog(original, target) && UniqueIds(original.buildings) && s.pos.Keys == Ids(original.buildings)
    requires i < |original.buildings| && original.buildings[i].spec.id == id && id in s.pending
    requires s.pending[id].destination == Some(target.buildings[i].origin)
    requires Settled(original, target, s)
    ensures Home(s, id).pos.Keys == Ids(original.buildings) && Settled(original, target, Home(s, id))
  {
    var t := Home(s, id);
    assert t.pos.Keys == s.pos.Keys;
    forall k | 0 <= k < |original.buildings| && original.buildings[k].spec.id !in t.pending
      ensures StandsAt(t.pos, original.buildings[k].spec.id, target.buildings[k].origin)
    {
      if k != i { assert original.buildings[k].spec.id !in s.pending; }
    }
  }

  // ---- Stepping aside ----------------------------------------------------------------

  lemma StagePlaceable(env: Env, pos: map<string, Point>, i: nat, o: Point)
    requires UniqueIds(env.original.buildings) && i < |env.original.buildings| && Positions(env.original, pos)
    requires env.city.width == env.original.width && env.city.height == env.original.height
    requires env.city.blocked == env.original.blocked
    requires Legal(env, pos, env.original.buildings[i].spec.id, o)
    ensures var c := Place(env.original, pos, env.city.roads);
      c.CanPlace(env.original.buildings[i].spec, o, Some(env.original.buildings[i].spec.id), true)
  {
    var id := env.original.buildings[i].spec.id;
    IndexOfUnique(env.original.buildings, i);
    var c, b := Place(env.original, pos, env.city.roads), env.original.buildings[i].(origin := o);
    forall p | p in b.Footprint() ensures c.InBounds(p) && p !in c.OccupiedCells(Some(id)) {
      forall j | 0 <= j < |c.buildings| && c.buildings[j].spec.id != id ensures p !in c.buildings[j].Footprint() {
        ClearIsDisjoint(env.original, pos, i, j, b);
      }
      assert p !in env.city.blocked + env.city.roads;
    }
  }

  lemma StagePlacementValid(env: Env, pos: map<string, Point>, i: nat, cell: Point)
    requires i < |env.original.buildings| && Positions(env.original, pos)
    requires Place(env.original, pos, env.city.roads).Valid()
    requires env.city.width == env.original.width && env.city.height == env.original.height
    requires env.city.blocked == env.original.blocked
    requires Legal(env, pos, env.original.buildings[i].spec.id, cell)
    ensures var next := Place(env.original, pos[env.original.buildings[i].spec.id := cell], env.city.roads);
      next.Valid() && next.buildings[i].Touches(env.city.roads)
  {
    PlacedIdsUnique(env.original, pos, env.city.roads);
    StagePlaceable(env, pos, i, cell);
    PlaceableIsValid(Place(env.original, pos, env.city.roads), i, cell, true);
    PlaceIsUpdate(env.original, pos, env.city.roads, i, cell);
    IndexOfUnique(env.original.buildings, i);
  }

  lemma StageExtends(s: StagingState, id: string, cell: Point)
    requires id in s.pos
    ensures Stage(s, id, cell).pos == s.pos[id := cell]
    ensures Stage(s, id, cell).resolved == s.resolved + [MoveStep(StageId(id, s.count + 1), id, s.pos[id], cell, [])]
  {
  }

  lemma StageLeads(env: Env, s: StagingState, i: nat, cell: Point)
    requires Leads(env.original, env.city.roads, s) && i < |env.original.buildings|
    requires env.city.width == env.original.width && env.city.height == env.original.height
    requires env.city.blocked == env.original.blocked
    requires env.original.buildings[i].spec.id in s.pending && env.original.buildings[i].spec.movable
    requires Legal(env, s.pos, env.original.buildings[i].spec.id, cell)
    ensures Leads(env.original, env.city.roads, Stage(s, env.original.buildings[i].spec.id, cell))
  {
    var id := env.original.buildings[i].spec.id;
    StagePlacementValid(env, s.pos, i, cell);
    StageExtends(s, id, cell);
    LeadsOn(env.original, env.city.roads, s, Stage(s, id, cell), i,
            MoveStep(StageId(id, s.count + 1), id, s.pos[id], cell, []));
  }

  lemma PlacedIdsUnique(base: City, pos: map<string, Point>, roads: set<Point>)
    requires Positions(base, pos) && UniqueIds(Place(base, pos, roads).buildings)
    ensures UniqueIds(base.buildings)
  {
    var c := Place(base, pos, roads);
    forall i, j | 0 <= i < j < |base.buildings| ensures base.buildings[i].spec.id != base.buildings[j].spec.id {
      assert c.buildings[i].spec.id != c.buildings[j].spec.id;
    }
  }

  /** A pending building can be moved about. */
  lemma PendingIsMovable(original: City, plan: JointPlan, ids: seq<StepId>, pending: map<string, Step>, id: string)
    returns (i: nat)
    requires IsDiff(original, plan) && Buildable(original, plan.result)
    requires PendingPlanned(original, plan, ids, pending) && id in pending
    ensures i < |original.buildings| && original.buildings[i].spec.id == id
    ensures Displaced(original, plan.result, i) && CanArrive(original, plan.result, i)
    ensures pending[id].destination == Some(plan.result.buildings[i].origin)
  {
    assert pending[id] == PlanStep(original, plan, MoveId(id));
    i := MoveStepOf(original, plan, id);
    assert CanArrive(original, plan.result, i);
  }

  /** The books after a staging step: only a staging step was added, nothing was un-pended. */
  lemma StageKeepsBooks(original: City, plan: JointPlan, ids: seq<StepId>, s: StagingState, id: string, cell: Point)
    requires PendingPlanned(original, plan, ids, s.pending) && OnlyMovesAdded(ids, s.completed) && Recorded(s)
    requires id in s.pos
    ensures var t := Stage(s, id, cell);
      PendingPlanned(original, plan, ids, t.pending) && OnlyMovesAdded(ids, t.completed) && Recorded(t)
  {
    RecordedPush(s, Stage(s, id, cell), MoveStep(StageId(id, s.count + 1), id, s.pos[id], cell, []));
  }

  lemma StageIsSafe(original: City, plan: JointPlan, ids: seq<StepId>, env: Env, s: StagingState, id: string,
                    cell: Point)
    requires IsDiff(original, plan) && Buildable(original, plan.result)
    requires Safe(original, plan, ids, s)
    requires env == StagingEnv(original, plan, MapAfter(original, plan.result, Elements(ids)))
    requires id in s.pending && id in s.pos && Legal(env, s.pos, id, cell)
    ensures Safe(original, plan, ids, Stage(s, id, cell))
  {
    var i := PendingIsMovable(original, plan, ids, s.pending, id);
    StageLeads(env, s, i, cell);
    StageKeepsBooks(original, plan, ids, s, id, cell);
    SettledAfterStage(original, plan.result, s, id, cell);
  }

  lemma SettledAfterStage(original: City, target: City, s: StagingState, id: string, cell: Point)
    requires SameCatalog(original, target) && s.pos.Keys == Ids(original.buildings)
    requires id in s.pending && id in s.pos && Settled(original, target, s)
    ensures Stage(s, id, cell).pos.Keys == Ids(original.buildings) && Settled(original, target, Stage(s, id, cell))
  {
    var t := Stage(s, id, cell);
    assert t.pos.Keys == s.pos.Keys;
    forall k | 0 <= k < |original.buildings| && original.buildings[k].spec.id !in t.pending
      ensures StandsAt(t.pos, original.buildings[k].spec.id, target.buildings[k].origin)
    {
      assert original.buildings[k].spec.id !in s.pending;
    }
  }

  // ---- The whole loop ----------------------------------------------------------------

  lemma NextIsSafe(original: City, plan: JointPlan, ids: seq<StepId>, env: Env, s: StagingState, t: StagingState)
    requires IsDiff(original, plan) && Buildable(original, plan.result)
    requires Ordered(DependencyGraph(original, plan), ids)
    requires env == StagingEnv(original, plan, MapAfter(original, plan.result, Elements(ids)))
    requires Safe(original, plan, ids, s) && Next(env, s, t)
    ensures Safe(original, plan, ids, t)
  {
    if id :| GoesHome(env, s, id, t) {
      HomeIsSafe(original, plan, ids, env, s, id);
    } else {
      var id, cell :| StepsAside(env, s, id, cell, t);
      StageIsSafe(original, plan, ids, env, s, id, cell);
    }
  }

  /** Any number of turns from a safe state: the steps so far replay, one by one. */
  lemma RunIsSafe(original: City, plan: JointPlan, ids: seq<StepId>, env: Env, trace: seq<StagingState>, k: nat)
    requires IsDiff(original, plan) && Buildable(original, plan.result)
    requires Ordered(DependencyGraph(original, plan), ids)
    requires env == StagingEnv(original, plan, MapAfter(original, plan.result, Elements(ids)))
    requires Run(env, trace) && k < |trace| && Safe(original, plan, ids, trace[0])
    ensures Safe(original, plan, ids, trace[k])
  {
    forall j | 0 < j <= k && Safe(original, plan, ids, trace[j - 1]) ensures Safe(original, plan, ids, trace[j]) {
      assert Turn(env, trace, j - 1);
      NextIsSafe(original, plan, ids, env, trace[j - 1], trace[j]);
    }
    RunInvariant(trace, k, s => Safe(original, plan, ids, s));
  }

  // ---- The start ---------------------------------------------------------------------

  lemma UnresolvedAt(original: City, plan: JointPlan, cp: ConstructionPlan, ids: seq<StepId>, k: nat)
    requires Planned(original, plan, cp, ids) && k < |cp.unresolved|
    ensures var rest := Remainder(DependencyGraph(original, plan), ids);
      |rest| == |cp.unresolved| && rest[k] in Steps(plan) && rest[k] !in ids
      && cp.unresolved[k] == PlanStep(original, plan, rest[k])
  {
    var rest := Remainder(DependencyGraph(original, plan), ids);
    assert rest[k] in rest;
  }

  /** An unresolved step is a step of the plan, under its own id. */
  lemma UnresolvedStep(original: City, plan: JointPlan, cp: ConstructionPlan, ids: seq<StepId>, step: Step)
    requires Planned(original, plan, cp, ids) && step in cp.unresolved
    ensures step.id in Steps(plan) && step.id !in ids && step == PlanStep(original, plan, step.id)
    ensures IsMove(step) <==> step.id.MoveId?
    ensures IsMove(step) ==> step.id == MoveId(step.building.value)
  {
    var k :| 0 <= k < |cp.unresolved| && cp.unresolved[k] == step;
    UnresolvedAt(original, plan, cp, ids, k);
    StepsKeyed(plan, Remainder(DependencyGraph(original, plan), ids)[k]);
  }

  lemma LeftOutIsUnresolved(original: City, plan: JointPlan, cp: ConstructionPlan, ids: seq<StepId>, a: StepId)
    requires Planned(original, plan, cp, ids) && a in Steps(plan) && a !in ids
    ensures PlanStep(original, plan, a) in cp.unresolved
  {
    var rest := Remainder(DependencyGraph(original, plan), ids);
    assert a in rest;
    var k :| 0 <= k < |rest| && rest[k] == a;
    UnresolvedAt(original, plan, cp, ids, k);
  }

  lemma StartPending(original: City, plan: JointPlan, cp: ConstructionPlan, ids: seq<StepId>)
    requires Planned(original, plan, cp, ids)
    ensures PendingPlanned(original, plan, ids, UnresolvedMoves(cp.unresolved))
  {
    var pending := UnresolvedMoves(cp.unresolved);
    forall id | id in pending
      ensures MoveId(id) in Steps(plan) && MoveId(id) !in ids && pending[id] == PlanStep(original, plan, MoveId(id))
    {
      UnresolvedStep(original, plan, cp, ids, pending[id]);
    }
  }

  lemma UnorderedMoveIsPending(original: City, plan: JointPlan, cp: ConstructionPlan, ids: seq<StepId>, id: string)
    requires Planned(original, plan, cp, ids) && MoveId(id) in Steps(plan) && MoveId(id) !in ids
    ensures id in UnresolvedMoves(cp.unresolved)
  {
    LeftOutIsUnresolved(original, plan, cp, ids, MoveId(id));
    StepsKeyed(plan, MoveId(id));
  }

  lemma PositionsOfMapAfter(original: City, target: City, done: set<StepId>)
    requires original.Valid() && target.Valid() && SameCatalog(original, target)
    ensures PositionsOf(MapAfter(original, target, done)) == PositionsAfter(original, target, done)
  {
    var c := MapAfter(original, target, done);
    assert forall i :: 0 <= i < |original.buildings| ==> c.buildings[i].spec.id == original.buildings[i].spec.id;
    assert Ids(c.buildings) == Ids(original.buildings);
    forall id | id in Ids(original.buildings) ensures OriginOf(c, id) == PositionsAfter(original, target, done)[id] {
      var i :| 0 <= i < |original.buildings| && original.buildings[i].spec.id == id;
      IndexOfUnique(c.buildings, i);
    }
  }

  lemma StartSettled(original: City, plan: JointPlan, cp: ConstructionPlan, ids: seq<StepId>)
    requires IsDiff(original, plan) && Planned(original, plan, cp, ids)
    ensures Settled(original, plan.result, StartState(cp, MapAfter(original, plan.result, Elements(ids))))
  {
    var s := StartState(cp, MapAfter(original, plan.result, Elements(ids)));
    PositionsOfMapAfter(original, plan.result, Elements(ids));
    forall i | 0 <= i < |original.buildings| && original.buildings[i].spec.id !in s.pending
      ensures StandsAt(s.pos, original.buildings[i].spec.id, plan.result.buildings[i].origin)
    {
      PositionAfter(original, plan.result, Elements(ids), i);
      DisplacedHasStep(original, plan, i);
      var id := original.buildings[i].spec.id;
      if MoveId(id) in Steps(plan) && MoveId(id) !in ids { UnorderedMoveIsPending(original, plan, cp, ids, id); }
    }
  }

  lemma StartIsSafe(original: City, plan: JointPlan, cp: ConstructionPlan, ids: seq<StepId>)
    requires IsDiff(original, plan) && Buildable(original, plan.result) && Planned(original, plan, cp, ids)
    ensures Safe(original, plan, ids, StartState(cp, MapAfter(original, plan.result, Elements(ids))))
  {
    PrefixReplays(original, plan, cp, ids);
    PositionsOfMapAfter(original, plan.result, Elements(ids));
    StartPending(original, plan, cp, ids);
    StartSettled(original, plan, cp, ids);
    AttachKeepsIds(plan, DependencyGraph(original, plan), ids);
    OrderMeetsDependencies(plan, DependencyGraph(original, plan), ids);
  }
}
