/** Two small cities on which the pipeline does not deliver, and why. */
module Witnesses {
  import opened Wrappers
  import opened Orders
  import opened CityMap
  import opened Construction
  import opened Topology
  import opened Planner
  import opened Buildability
  import opened PlanReplay
  import opened JointOptimizer
  import opened StagingModel
  import opened StagingProgress
  import opened StagingSafety
  import opened StagingEnd

  function Spec(id: string, width: int): BuildingSpec {
    BuildingSpec(id, Residential, width, 1, 0, 0, 0, 0.0, 0.0, true)
  }

  // ---- A destination on a road that is removed only later ----------------------------

  const RoadSide: City := City(3, 2, {Point(1, 0), Point(1, 1)}, {}, [Building(Spec("a", 1), Point(0, 0))])

  const OnTheRoad: City := City(3, 2, {Point(1, 1)}, {}, [Building(Spec("a", 1), Point(1, 0))])

  const OntoRoad: JointPlan := JointPlan(0.0, 1.0, [LayoutMove("a", Point(0, 0), Point(1, 0))],
                                         [RoadEdit(Remove, Point(1, 0))], OnTheRoad)

  lemma OneCell(b: Building)
    requires b.spec.width == 1 && b.spec.height == 1
    ensures b.Footprint() == {b.origin}
  {
  }

  lemma RoadSideIsValid()
    ensures RoadSide.Valid() && OnTheRoad.Valid()
  {
    OneCell(RoadSide.buildings[0]);
    OneCell(OnTheRoad.buildings[0]);
    assert "a"[0] == 'a';
    assert 'a' in "a";
  }

  lemma OntoRoadIsDiff()
    ensures IsDiff(RoadSide, OntoRoad)
  {
    RoadSideIsValid();
    assert Displaced(RoadSide, OnTheRoad, 0);
    assert OntoRoad.moves[0] in OntoRoad.moves;
    assert OntoRoad.edits[0] in OntoRoad.edits;
    forall m | m in OntoRoad.moves ensures MoveIsDiff(RoadSide, OnTheRoad, m) {
      assert m == LayoutMove(RoadSide.buildings[0].spec.id, RoadSide.buildings[0].origin,
        OnTheRoad.buildings[0].origin);
    }
  }

  /**
   A difference that keeps access everywhere, as joint plans do, and that no order of the
   planner can carry out: the destination is a road until after the move.
   */
  lemma OntoRoadFails(cp: ConstructionPlan, ids: seq<StepId>)
    requires Planned(RoadSide, OntoRoad, cp, ids)
    ensures IsDiff(RoadSide, OntoRoad) && Reworked(RoadSide, OnTheRoad) && !Buildable(RoadSide, OnTheRoad)
    ensures Replay(RoadSide, cp.ordered).Failure?
  {
    OntoRoadIsDiff();
    OntoRoadReworked();
    assert Displaced(RoadSide, OnTheRoad, 0);
    OneCell(OnTheRoad.buildings[0]);
    assert Point(1, 0) in OnTheRoad.buildings[0].Footprint();
    assert !CanArrive(RoadSide, OnTheRoad, 0);
    WholeReplay(RoadSide, OntoRoad, cp, ids);
    MoveIsOrdered(ids);
    assert !StepNeed(RoadSide, OntoRoad, MoveId("a"));
  }

  lemma OntoRoadReworked()
    ensures Reworked(RoadSide, OnTheRoad)
  {
    RoadSideIsValid();
    OneCell(OnTheRoad.buildings[0]);
    assert Point(1, 0) in OnTheRoad.buildings[0].Footprint() && Adjacent(Point(1, 0), Point(1, 1));
    assert OnTheRoad.buildings[0].Beside(Point(1, 1));
    assert KeepsAccess(RoadSide, OnTheRoad, 0);
  }

  lemma MoveIsOrdered(ids: seq<StepId>)
    requires Exhausted(DependencyGraph(RoadSide, OntoRoad), ids)
    ensures MoveId("a") in Elements(ids)
  {
    var g := DependencyGraph(RoadSide, OntoRoad);
    assert OntoRoad.moves[0] in OntoRoad.moves;
    assert MoveId("a") in Steps(OntoRoad);
    assert Moved(OntoRoad.moves) == {"a"};
    assert forall b :: b in Steps(OntoRoad) ==> !Waits(RoadSide, OnTheRoad, MoveId("a"), b);
    assert g[MoveId("a")] == {};
  }

  // ---- A bystander that steps aside for ever -----------------------------------------

  /** `b` and `c` swap; `a` only waits for `b`, but comes first in name order. */
  const Street: City := City(5, 2, {Point(0, 1), Point(1, 1), Point(2, 1), Point(3, 1), Point(4, 1)}, {},
    [Building(Spec("a", 1), Point(0, 0)), Building(Spec("b", 2), Point(1, 0)), Building(Spec("c", 1), Point(3, 0))])

  const StreetTarget: City := Street.(buildings :=
    [Building(Spec("a", 1), Point(2, 0)), Building(Spec("b", 2), Point(3, 0)), Building(Spec("c", 1), Point(1, 0))])

  const Swap: JointPlan := JointPlan(0.0, 1.0,
    [LayoutMove("a", Point(0, 0), Point(2, 0)), LayoutMove("b", Point(1, 0), Point(3, 0)),
      LayoutMove("c", Point(3, 0), Point(1, 0))],
    [], StreetTarget)

  lemma TwoCells(b: Building)
    requires b.spec.width == 2 && b.spec.height == 1
    ensures b.Footprint() == {b.origin, Point(b.origin.x + 1, b.origin.y)}
  {
  }

  lemma StreetCells()
    ensures Street.buildings[0].Footprint() == {Point(0, 0)}
    ensures Street.buildings[1].Footprint() == {Point(1, 0), Point(2, 0)}
    ensures Street.buildings[2].Footprint() == {Point(3, 0)}
    ensures StreetTarget.buildings[0].Footprint() == {Point(2, 0)}
    ensures StreetTarget.buildings[1].Footprint() == {Point(3, 0), Point(4, 0)}
    ensures StreetTarget.buildings[2].Footprint() == {Point(1, 0)}
  {
    OneCell(Street.buildings[0]);
    TwoCells(Street.buildings[1]);
    OneCell(Street.buildings[2]);
    OneCell(StreetTarget.buildings[0]);
    TwoCells(StreetTarget.buildings[1]);
    OneCell(StreetTarget.buildings[2]);
  }

  lemma StreetSpecs()
    ensures forall i ::
      0 <= i < 3 ==> Street.buildings[i].spec.Valid() && StreetTarget.buildings[i].spec == Street.buildings[i].spec
    ensures UniqueIds(Street.buildings) && UniqueIds(StreetTarget.buildings)
  {
    assert 'a' in "a" && 'b' in "b" && 'c' in "c";
  }

  lemma StreetFits(i: nat)
    requires i < 3
    ensures Street.Fits(Street.buildings[i])
  {
    StreetCells();
  }

  lemma TargetFits(i: nat)
    requires i < 3
    ensures StreetTarget.Fits(StreetTarget.buildings[i])
  {
    StreetCells();
  }

  lemma StreetApart(i: nat, j: nat)
    requires i < j < 3
    ensures Disjoint(Street.buildings[i], Street.buildings[j])
    ensures Disjoint(StreetTarget.buildings[i], StreetTarget.buildings[j])
  {
    StreetCells();
  }

  lemma StreetIsValid()
    ensures Street.Valid() && StreetTarget.Valid()
  {
    StreetSpecs();
    forall i: nat | i < 3
      ensures Street.Fits(Street.buildings[i]) && StreetTarget.Fits(StreetTarget.buildings[i])
    {
      StreetFits(i);
      TargetFits(i);
    }
    forall i: nat, j: nat | i < j < 3
      ensures Disjoint(Street.buildings[i], Street.buildings[j])
        && Disjoint(StreetTarget.buildings[i], StreetTarget.buildings[j])
    {
      StreetApart(i, j);
    }
  }

  lemma SwapMoves()
    ensures Moved(Swap.moves) == {"a", "b", "c"}
    ensures forall k :: 0 <= k < 3 ==>
      Swap.moves[k] == LayoutMove(Street.buildings[k].spec.id, Street.buildings[k].origin,
        StreetTarget.buildings[k].origin)
  {
    assert Swap.moves[0] in Swap.moves && Swap.moves[1] in Swap.moves && Swap.moves[2] in Swap.moves;
  }

  lemma SwapMoveIsDiff(m: LayoutMove)
    requires m in Swap.moves && SameCatalog(Street, StreetTarget)
    ensures MoveIsDiff(Street, StreetTarget, m)
  {
    SwapMoves();
    var k :| 0 <= k < |Swap.moves| && Swap.moves[k] == m;
    assert Displaced(Street, StreetTarget, k);
  }

  lemma SwapIsDiff()
    ensures IsDiff(Street, Swap)
  {
    StreetIsValid();
    StreetSpecs();
    SwapMoves();
    forall m | m in Swap.moves ensures MoveIsDiff(Street, StreetTarget, m) { SwapMoveIsDiff(m); }
  }

  lemma StreetNames()
    ensures IndexOf(Street.buildings, "a") == Some(0) && IndexOf(StreetTarget.buildings, "a") == Some(0)
    ensures IndexOf(Street.buildings, "b") == Some(1) && IndexOf(StreetTarget.buildings, "b") == Some(1)
    ensures IndexOf(Street.buildings, "c") == Some(2) && IndexOf(StreetTarget.buildings, "c") == Some(2)
  {
    StreetSpecs();
    IndexOfUnique(Street.buildings, 0);
    IndexOfUnique(Street.buildings, 1);
    IndexOfUnique(Street.buildings, 2);
    IndexOfUnique(StreetTarget.buildings, 0);
    IndexOfUnique(StreetTarget.buildings, 1);
    IndexOfUnique(StreetTarget.buildings, 2);
  }

  lemma SwapSteps()
    ensures Steps(Swap).Keys == {MoveId("a"), MoveId("b"), MoveId("c")}
    ensures MovesOnly(Swap, {"a", "b", "c"})
  {
    SwapMoves();
    assert Edited(Swap.edits, Build) == {} && Edited(Swap.edits, Remove) == {};
    ThreeMoves(Swap, "a", "b", "c");
  }

  lemma ThreeMoves(plan: JointPlan, p: string, q: string, r: string)
    requires Moved(plan.moves) == {p, q, r} && Edited(plan.edits, Build) == {} && Edited(plan.edits, Remove) == {}
    ensures Steps(plan).Keys == {MoveId(p), MoveId(q), MoveId(r)} && MovesOnly(plan, {p, q, r})
  {
    OnlyMoves(plan, {p, q, r});
    assert forall a: StepId :: a in Steps(plan).Keys <==> a in {MoveId(p), MoveId(q), MoveId(r)};
  }

  lemma OnlyMoves(plan: JointPlan, names: set<string>)
    requires Moved(plan.moves) == names && Edited(plan.edits, Build) == {} && Edited(plan.edits, Remove) == {}
    ensures MovesOnly(plan, names)
    ensures forall a: StepId :: a in Steps(plan) <==> a.MoveId? && a.building in names
  {
  }

  lemma StreetWaits()
    ensures Waits(Street, StreetTarget, MoveId("a"), MoveId("b"))
    ensures Waits(Street, StreetTarget, MoveId("b"), MoveId("c"))
    ensures Waits(Street, StreetTarget, MoveId("c"), MoveId("b"))
  {
    StreetCells();
    StreetNames();
    assert Point(2, 0) in FootprintOf(StreetTarget, "a") * FootprintOf(Street, "b");
    assert Point(3, 0) in FootprintOf(StreetTarget, "b") * FootprintOf(Street, "c");
    assert Point(1, 0) in FootprintOf(StreetTarget, "c") * FootprintOf(Street, "b");
  }

  /** Whatever is ordered first waits for nothing. */
  lemma FirstIsFree(g: Graph, ids: seq<StepId>)
    requires Ordered(g, ids) && ids != []
    ensures ids[0] in g && g[ids[0]] == {}
  {
    assert ids[..0] == [];
    assert g[ids[0]] <= Elements([]);
  }

  /** Nothing of the swap can be ordered. */
  lemma NothingOrdered(ids: seq<StepId>)
    requires Ordered(DependencyGraph(Street, Swap), ids)
    ensures ids == []
  {
    SwapSteps();
    StreetWaits();
    Edge(Street, Swap, MoveId("a"), MoveId("b"));
    Edge(Street, Swap, MoveId("b"), MoveId("c"));
    Edge(Street, Swap, MoveId("c"), MoveId("b"));
    if ids != [] { FirstIsFree(DependencyGraph(Street, Swap), ids); }
  }

  // ---- The loop's first turn ---------------------------------------------------------

  /** `other` stands on a cell that `id` is bound for. */
  ghost predicate Barred(c: City, s: StagingState, id: string, other: string, cell: Point) {
    && other in s.pos && other != id && id in s.pending && s.pending[id].destination.Some?
    && cell in At(c, other, s.pos[other]) && cell in At(c, id, s.pending[id].destination.value)
  }

  lemma BarredIsNotReady(env: Env, s: StagingState, id: string, other: string, cell: Point)
    requires Barred(env.original, s, id, other, cell)
    ensures !Ready(env, s, id)
  {
    assert !(At(env.original, other, s.pos[other]) !! At(env.original, id, s.pending[id].destination.value));
  }

  /** With only pending moves to wait for, the first name is the pivot. */
  lemma FirstNameIsPivot(s: StagingState, id: string)
    requires id in s.pending && forall d :: d in s.pending[id].dependsOn ==> d in PendingIds(s)
    requires forall o :: o in s.pending ==> o == id || LexLess(id, o)
    ensures Pivot(s, id)
  {
  }

  lemma StreetAt()
    ensures At(Street, "b", Point(1, 0)) == {Point(1, 0), Point(2, 0)}
    ensures At(Street, "c", Point(3, 0)) == {Point(3, 0)}
    ensures At(Street, "a", Point(2, 0)) == {Point(2, 0)}
    ensures At(Street, "b", Point(3, 0)) == {Point(3, 0), Point(4, 0)}
    ensures At(Street, "c", Point(1, 0)) == {Point(1, 0)}
  {
    StreetNames();
    TwoCells(Building(Spec("b", 2), Point(1, 0)));
    TwoCells(Building(Spec("b", 2), Point(3, 0)));
    OneCell(Building(Spec("c", 1), Point(3, 0)));
    OneCell(Building(Spec("a", 1), Point(2, 0)));
    OneCell(Building(Spec("c", 1), Point(1, 0)));
  }

  function Destination(id: string): Point {
    if id == "a" then Point(2, 0) else if id == "b" then Point(3, 0) else Point(1, 0)
  }

  /** The loop's first state on the street. */
  ghost predicate AtStart(s: StagingState) {
    && s.pos == map["a" := Point(0, 0), "b" := Point(1, 0), "c" := Point(3, 0)]
    && s.pending.Keys == {"a", "b", "c"} && Tied(s)
  }

  lemma NobodyReady(env: Env, s: StagingState)
    requires env.original == Street && AtStart(s)
    ensures NoneReady(env, s)
  {
    forall id | id in s.pending ensures !Ready(env, s, id) { NotReadyThere(env, s, id); }
  }

  lemma NotReadyThere(env: Env, s: StagingState, id: string)
    requires env.original == Street && AtStart(s) && id in s.pending
    ensures !Ready(env, s, id)
  {
    StreetAt();
    if id == "a" { BarredIsNotReady(env, s, id, "b", Point(2, 0)); }
    else if id == "b" { BarredIsNotReady(env, s, id, "c", Point(3, 0)); }
    else { BarredIsNotReady(env, s, id, "b", Point(1, 0)); }
  }

  /** `a` stands free, beside the road, and in nobody's target. */
  lemma StandsWell(env: Env, s: StagingState)
    requires env == Env(Street, StreetTarget, Street) && AtStart(s)
    ensures StandsLegally(env, s, "a")
  {
    var b := Building(Spec("a", 1), Point(0, 0));
    OneCell(b);
    StandsBeside(b);
    StandsClear(s.pos, b.Footprint());
    StandsOff(b.Footprint());
    StreetNames();
    assert b == Street.buildings[0].(origin := Point(0, 0));
  }

  lemma StandsBeside(b: Building)
    requires b.Footprint() == {Point(0, 0)}
    ensures b.Touches(Street.roads) && b.Footprint() !! Street.blocked + Street.roads
  {
    assert Point(0, 0) in b.Footprint() && Adjacent(Point(0, 0), Point(0, 1));
    assert b.Beside(Point(0, 1));
  }

  lemma StandsClear(pos: map<string, Point>, cells: set<Point>)
    requires cells == {Point(0, 0)}
    requires pos == map["a" := Point(0, 0), "b" := Point(1, 0), "c" := Point(3, 0)]
    ensures ClearOf(Street, pos, "a", cells)
  {
    StreetAt();
  }

  lemma StandsOff(cells: set<Point>)
    requires cells == {Point(0, 0)}
    ensures AvoidsTargets(StreetTarget, "a", cells)
  {
    StreetCells();
  }

  lemma StartStutters(env: Env, s: StagingState)
    requires env == Env(Street, StreetTarget, Street) && AtStart(s)
    ensures Stutters(env, s)
  {
    NobodyReady(env, s);
    StandsWell(env, s);
    assert LexLess("a", "b") && LexLess("a", "c");
    FirstNameIsPivot(s, "a");
  }

  lemma StreetIds()
    ensures Ids(Street.buildings) == {"a", "b", "c"}
  {
    var bs := Street.buildings;
    assert bs[0].spec.id == "a" && bs[1].spec.id == "b" && bs[2].spec.id == "c";
  }

  lemma ThreePositions(c: City, p: string, q: string, r: string)
    requires Ids(c.buildings) == {p, q, r} && p != q && q != r && p != r
    ensures PositionsOf(c) == map[p := OriginOf(c, p), q := OriginOf(c, q), r := OriginOf(c, r)]
  {
  }

  lemma StreetPositions()
    ensures PositionsOf(Street) == map["a" := Point(0, 0), "b" := Point(1, 0), "c" := Point(3, 0)]
  {
    StreetNames();
    StreetIds();
    ThreePositions(Street, "a", "b", "c");
  }

  lemma SwapStep(id: string)
    requires id in {"a", "b", "c"}
    ensures MoveId(id) in Steps(Swap)
    ensures PlanStep(Street, Swap, MoveId(id)).id == MoveId(id)
    ensures PlanStep(Street, Swap, MoveId(id)).destination == Some(Destination(id))
    ensures forall d :: d in PlanStep(Street, Swap, MoveId(id)).dependsOn ==> d in Steps(Swap)
  {
    SwapIsDiff();
    SwapSteps();
    StreetNames();
    var i := MoveStepOf(Street, Swap, id);
    assert forall d ::
      d in PlanStep(Street, Swap, MoveId(id)).dependsOn ==> d in DependencyGraph(Street, Swap)[MoveId(id)];
  }

  /** The plan moves exactly the buildings of `names`. */
  ghost predicate MovesOnly(plan: JointPlan, names: set<string>) {
    && (forall a :: a in Steps(plan) ==> a.MoveId? && a.building in names)
    && (forall id :: id in names ==> MoveId(id) in Steps(plan))
  }

  /** When nothing could be ordered every move is pending. */
  lemma AllPending(original: City, plan: JointPlan, cp: ConstructionPlan, names: set<string>)
    requires Planned(original, plan, cp, []) && MovesOnly(plan, names)
    ensures UnresolvedMoves(cp.unresolved).Keys == names
  {
    NamedArePending(original, plan, cp, names);
    PendingWithin(original, plan, cp, names);
  }

  lemma PendingWithin(original: City, plan: JointPlan, cp: ConstructionPlan, names: set<string>)
    requires Planned(original, plan, cp, []) && MovesOnly(plan, names)
    ensures UnresolvedMoves(cp.unresolved).Keys <= names
  {
    StartPending(original, plan, cp, []);
    PendingAreNamed(original, plan, UnresolvedMoves(cp.unresolved), names);
  }

  lemma NamedArePending(original: City, plan: JointPlan, cp: ConstructionPlan, names: set<string>)
    requires Planned(original, plan, cp, []) && MovesOnly(plan, names)
    ensures names <= UnresolvedMoves(cp.unresolved).Keys
  {
    forall id | id in names ensures id in UnresolvedMoves(cp.unresolved) { NamedIsPending(original, plan, cp, id); }
  }

  lemma NamedIsPending(original: City, plan: JointPlan, cp: ConstructionPlan, id: string)
    requires Planned(original, plan, cp, []) && MoveId(id) in Steps(plan)
    ensures id in UnresolvedMoves(cp.unresolved)
  {
    UnorderedMoveIsPending(original, plan, cp, [], id);
  }

  lemma PendingAreNamed(original: City, plan: JointPlan, pending: map<string, Step>, names: set<string>)
    requires PendingPlanned(original, plan, [], pending) && MovesOnly(plan, names)
    ensures pending.Keys <= names
  {
    forall id | id in pending ensures id in names {
      assert pending[id] == PlanStep(original, plan, MoveId(id));
      assert MoveId(id).building in names;
    }
  }

  /** In a plan of moves only, pending moves wait for pending moves only. */
  lemma WaitsForPending(original: City, plan: JointPlan, s: StagingState)
    requires PendingPlanned(original, plan, [], s.pending) && MovesOnly(plan, s.pending.Keys)
    ensures forall id :: id in s.pending ==> s.pending[id].id == MoveId(id)
    ensures forall id, d :: id in s.pending && d in s.pending[id].dependsOn ==> d in PendingIds(s)
  {
    forall id | id in s.pending ensures s.pending[id].id == MoveId(id) { StepsKeyed(plan, MoveId(id)); }
    forall id, d | id in s.pending && d in s.pending[id].dependsOn ensures d in PendingIds(s) {
      assert d in DependencyGraph(original, plan)[MoveId(id)];
      assert s.pending[d.building].id == d;
    }
  }

  /** The step that moves `id` ends at `o`. */
  ghost predicate Ends(original: City, plan: JointPlan, id: string, o: Point) {
    MoveId(id) in Steps(plan) && PlanStep(original, plan, MoveId(id)).destination == Some(o)
  }

  lemma PendingEnds(original: City, plan: JointPlan, pending: map<string, Step>, id: string, o: Point)
    requires PendingPlanned(original, plan, [], pending) && id in pending && Ends(original, plan, id, o)
    ensures pending[id].destination == Some(o)
  {
    assert pending[id] == PlanStep(original, plan, MoveId(id));
  }

  /** Every pending move is where the plan says and waits for pending moves only. */
  ghost predicate Tied(s: StagingState) {
    && (forall id ::
      id in s.pending ==> s.pending[id].id == MoveId(id) && s.pending[id].destination == Some(Destination(id)))
    && (forall id, d :: id in s.pending && d in s.pending[id].dependsOn ==> d in PendingIds(s))
  }

  lemma Starts(original: City, plan: JointPlan, cp: ConstructionPlan, s: StagingState, names: set<string>)
    requires Planned(original, plan, cp, []) && s == StartState(cp, original) && MovesOnly(plan, names)
    requires forall id :: id in names ==> Ends(original, plan, id, Destination(id))
    ensures s.pending.Keys == names && Tied(s)
  {
    StartPending(original, plan, cp, []);
    AllPending(original, plan, cp, names);
    WaitsForPending(original, plan, s);
    forall id | id in s.pending ensures s.pending[id].destination == Some(Destination(id)) {
      PendingEnds(original, plan, s.pending, id, Destination(id));
    }
  }

  lemma SwapEnds(id: string)
    requires id in {"a", "b", "c"}
    ensures Ends(Street, Swap, id, Destination(id))
  {
    SwapStep(id);
  }

  // ---- The loop never ends -----------------------------------------------------------

  /** Whatever state the loop starts in, it stutters there. */
  ghost predicate StuckAtStart(env: Env) {
    forall s :: AtStart(s) ==> Stutters(env, s)
  }

  ghost predicate OrdersNothing(g: Graph) {
    forall ids :: Ordered(g, ids) ==> ids == []
  }

  /** A run of the loop that starts in `s` is not over. */
  ghost predicate GoesOn(env: Env, s: StagingState, trace: seq<StagingState>) {
    Run(env, trace) && trace[0] == s ==> !Halted(env, trace[|trace| - 1])
  }

  ghost predicate NeverHalts(env: Env, s: StagingState) {
    forall trace :: GoesOn(env, s, trace)
  }

  /** Whatever the planner answers, it orders nothing and the staging loop never ends. */
  ghost predicate RunsInCircles(original: City, plan: JointPlan) {
    forall cp, ids :: Planned(original, plan, cp, ids) ==>
      ids == [] && NeverHalts(Env(original, plan.result, original), StartState(cp, original))
  }

  lemma StuckNeverHalts(env: Env, s: StagingState)
    requires Aimed(env, s) && Stutters(env, s)
    ensures NeverHalts(env, s)
  {
    forall trace ensures GoesOn(env, s, trace) {
      if Run(env, trace) && trace[0] == s { StuckGoesOn(env, s, trace); }
    }
  }

  lemma StuckGoesOn(env: Env, s: StagingState, trace: seq<StagingState>)
    requires Aimed(env, s) && Stutters(env, s) && Run(env, trace) && trace[0] == s
    ensures !Halted(env, trace[|trace| - 1])
  {
    StutterForever(env, trace, |trace| - 1);
  }

  lemma AimedStart(original: City, plan: JointPlan, cp: ConstructionPlan, names: set<string>)
    requires IsDiff(original, plan) && MovesOnly(plan, names) && Planned(original, plan, cp, [])
    ensures Aimed(Env(original, plan.result, original), StartState(cp, original))
  {
    StartPending(original, plan, cp, []);
    AllPending(original, plan, cp, names);
    PlannedIsAimed(original, plan, Env(original, plan.result, original), [], StartState(cp, original));
  }

  lemma NothingIsOrdered(original: City, plan: JointPlan, cp: ConstructionPlan, ids: seq<StepId>)
    requires OrdersNothing(DependencyGraph(original, plan)) && Planned(original, plan, cp, ids)
    ensures ids == []
  {
    assert Ordered(DependencyGraph(original, plan), ids);
  }

  /** A difference that moves `names` only, each waiting for another. */
  ghost predicate MovesInCircles(original: City, plan: JointPlan, names: set<string>) {
    IsDiff(original, plan) && MovesOnly(plan, names) && OrdersNothing(DependencyGraph(original, plan))
  }

  /** The loop starts where it stutters. */
  ghost predicate StartsStuck(original: City, plan: JointPlan, names: set<string>) {
    && PositionsOf(original) == map["a" := Point(0, 0), "b" := Point(1, 0), "c" := Point(3, 0)]
    && (forall id :: id in names ==> Ends(original, plan, id, Destination(id)))
    && StuckAtStart(Env(original, plan.result, original))
  }

  lemma StartsThere(original: City, plan: JointPlan, cp: ConstructionPlan, names: set<string>)
    requires MovesOnly(plan, names) && Planned(original, plan, cp, []) && names == {"a", "b", "c"}
    requires PositionsOf(original) == map["a" := Point(0, 0), "b" := Point(1, 0), "c" := Point(3, 0)]
    requires forall id :: id in names ==> Ends(original, plan, id, Destination(id))
    ensures AtStart(StartState(cp, original))
  {
    Starts(original, plan, cp, StartState(cp, original), names);
  }

  lemma StuckThere(env: Env, s: StagingState)
    requires StuckAtStart(env) && AtStart(s) && Aimed(env, s)
    ensures NeverHalts(env, s)
  {
    StuckNeverHalts(env, s);
  }

  lemma StuckAfterPlanning(original: City, plan: JointPlan, cp: ConstructionPlan, names: set<string>)
    requires IsDiff(original, plan) && MovesOnly(plan, names) && Planned(original, plan, cp, [])
    requires StartsStuck(original, plan, names) && names == {"a", "b", "c"}
    ensures NeverHalts(Env(original, plan.result, original), StartState(cp, original))
  {
    AimedStart(original, plan, cp, names);
    StartsThere(original, plan, cp, names);
    StuckThere(Env(original, plan.result, original), StartState(cp, original));
  }

  lemma CirclesWhenStuck(original: City, plan: JointPlan, names: set<string>)
    requires MovesInCircles(original, plan, names) && StartsStuck(original, plan, names) && names == {"a", "b", "c"}
    ensures RunsInCircles(original, plan)
  {
    forall cp, ids | Planned(original, plan, cp, ids)
      ensures ids == [] && NeverHalts(Env(original, plan.result, original), StartState(cp, original))
    {
      NothingIsOrdered(original, plan, cp, ids);
      StuckAfterPlanning(original, plan, cp, names);
    }
  }

  lemma SwapEndsAll()
    ensures forall id :: id in {"a", "b", "c"} ==> Ends(Street, Swap, id, Destination(id))
  {
    SwapEnds("a");
    SwapEnds("b");
    SwapEnds("c");
  }

  lemma StreetIsStuck()
    ensures StuckAtStart(Env(Street, Swap.result, Street))
  {
    forall s | AtStart(s) ensures Stutters(Env(Street, Swap.result, Street), s) {
      StartStutters(Env(Street, Swap.result, Street), s);
    }
  }

  lemma StreetOrdersNothing()
    ensures OrdersNothing(DependencyGraph(Street, Swap))
  {
    forall ids | Ordered(DependencyGraph(Street, Swap), ids) ensures ids == [] { NothingOrdered(ids); }
  }

  lemma SwapIsBuildable()
    ensures IsDiff(Street, Swap) && Buildable(Street, StreetTarget)
  {
    SwapIsDiff();
    StreetCells();
    forall i | 0 <= i < 3 ensures CanArrive(Street, StreetTarget, i) {
      var o := StreetTarget.buildings[i].origin;
      assert o in StreetTarget.buildings[i].Footprint() && Adjacent(o, Point(o.x, 1));
      assert StreetTarget.buildings[i].Beside(Point(o.x, 1));
      assert Point(o.x, 1) in Street.roads + StreetTarget.roads;
    }
  }

  lemma SwapMovesInCircles()
    ensures MovesInCircles(Street, Swap, {"a", "b", "c"})
  {
    SwapIsDiff();
    SwapSteps();
    StreetOrdersNothing();
  }

  lemma SwapStartsStuck()
    ensures StartsStuck(Street, Swap, {"a", "b", "c"})
  {
    StreetPositions();
    StreetIsStuck();
    SwapEndsAll();
  }

  lemma SwapRunsInCircles()
    ensures RunsInCircles(Street, Swap)
  {
    SwapMovesInCircles();
    SwapStartsStuck();
    CirclesWhenStuck(Street, Swap, {"a", "b", "c"});
  }

  /** On this city the staging loop never ends, although the difference is a buildable one. */
  lemma StagingRunsForever()
    ensures IsDiff(Street, Swap) && Buildable(Street, StreetTarget)
    ensures RunsInCircles(Street, Swap)
  {
    SwapIsBuildable();
    SwapRunsInCircles();
  }
}
