/** Two buildings that change places: the simplest cycle the staging solver is for. */
module Swaps {
  import opened Wrappers
  import opened Orders
  import opened CityMap
  import opened Construction
  import opened Topology
  import opened Planner
  import opened Buildability
  import opened StagingModel
  import opened StagingProgress
  import opened StagingSafety
  import opened StagingKnots
  import opened StagingSolver
  import opened PlanKnots
  import opened StagingCompletes
  import opened StagingRoom
  import opened EndToEnd
  import Witnesses

  /** The plan moves `a` and `b` only, each onto cells of the other. */
  ghost predicate SwapPlan(original: City, plan: JointPlan, a: string, b: string) {
    && a != b && LexLess(a, b) && Steps(plan).Keys == {MoveId(a), MoveId(b)}
    && Waits(original, plan.result, MoveId(a), MoveId(b)) && Waits(original, plan.result, MoveId(b), MoveId(a))
  }

  lemma SwapGraph(original: City, plan: JointPlan, a: string, b: string)
    requires SwapPlan(original, plan, a, b)
    ensures var g := DependencyGraph(original, plan); g[MoveId(a)] == {MoveId(b)} && g[MoveId(b)] == {MoveId(a)}
  {
    var g := DependencyGraph(original, plan);
    assert forall d :: d in Steps(plan).Keys <==> d == MoveId(a) || d == MoveId(b);
    Edge(original, plan, MoveId(a), MoveId(b));
    Edge(original, plan, MoveId(b), MoveId(a));
  }

  /** Each waits for the other and for nothing else. */
  lemma SwapIsStuck(original: City, plan: JointPlan, a: string, b: string, x: string)
    requires SwapPlan(original, plan, a, b)
    ensures Stuck(original, plan, x) <==> x == a || x == b
    ensures x == a || x == b ==> MayMove(original, plan, x)
  {
    SwapGraph(original, plan, a, b);
    if x == a || x == b { GoesRound(DependencyGraph(original, plan), MoveId(x), MoveId(if x == a then b else a)); }
  }

  lemma GoesRound(g: Graph, x: StepId, y: StepId)
    requires x in g && y in g && y in g[x] && x in g[y]
    ensures ReachesCycle(g, x)
  {
    var walk := [x, y, x];
    assert DependencyWalk(g, walk) && walk[0] == walk[2];
  }

  lemma SwapHolds(original: City, plan: JointPlan, a: string, b: string, q: string, x: string)
    requires SwapPlan(original, plan, a, b)
    ensures HoldsBack(original, plan, q, x) <==> (q == a && x == b) || (q == b && x == a)
  {
    SwapGraph(original, plan, a, b);
    SwapIsStuck(original, plan, a, b, q);
    SwapIsStuck(original, plan, a, b, x);
  }

  /** So the planner orders nothing, and the loop starts from the original map. */
  lemma SwapOrdersNothing(original: City, plan: JointPlan, cp: ConstructionPlan, ids: seq<StepId>, a: string, b: string)
    requires SwapPlan(original, plan, a, b) && Planned(original, plan, cp, ids)
    ensures Elements(ids) == {}
  {
    OrderedInGraph(DependencyGraph(original, plan), ids);
    forall d ensures d !in Elements(ids) {
      if d in Elements(ids) {
        SwapIsStuck(original, plan, a, b, d.building);
        PendingIffStuck(original, plan, cp, ids, d.building);
      }
    }
  }

  lemma PendingInSwap(original: City, plan: JointPlan, cp: ConstructionPlan, ids: seq<StepId>, a: string, b: string,
                      x: string)
    requires SwapPlan(original, plan, a, b) && Planned(original, plan, cp, ids)
    ensures x in UnresolvedMoves(cp.unresolved).Keys <==> x in {a, b}
  {
    PendingIffStuck(original, plan, cp, ids, x);
    SwapIsStuck(original, plan, a, b, x);
  }

  lemma SwapPending(original: City, plan: JointPlan, cp: ConstructionPlan, ids: seq<StepId>, a: string, b: string)
    requires SwapPlan(original, plan, a, b) && Planned(original, plan, cp, ids)
    ensures UnresolvedMoves(cp.unresolved).Keys == {a, b}
  {
    var x := Difference(UnresolvedMoves(cp.unresolved).Keys, {a, b});
    PendingInSwap(original, plan, cp, ids, a, b, x);
  }

  /** Two different sets differ in some element. */
  ghost function Difference(s: set<string>, t: set<string>): (x: string)
    ensures s != t ==> !(x in s <==> x in t)
  {
    if exists x :: x in s && x !in t then var x :| x in s && x !in t; x
    else if exists x :: x in t && x !in s then var x :| x in t && x !in s; x
    else assert s == t; ""
  }

  lemma StartIsSwapping(original: City, plan: JointPlan, cp: ConstructionPlan, ids: seq<StepId>, a: string, b: string)
    requires IsDiff(original, plan) && SwapPlan(original, plan, a, b) && Planned(original, plan, cp, ids)
    ensures Swapping(EnvOf(original, plan, ids), StartOf(original, plan, cp, ids), a, b)
  {
    var env, s := EnvOf(original, plan, ids), StartOf(original, plan, cp, ids);
    SwapPending(original, plan, cp, ids, a, b);
    EligibleAtStart(original, plan, cp, ids, MapAfter(original, plan.result, Elements(ids)), a);
    EligibleAtStart(original, plan, cp, ids, MapAfter(original, plan.result, Elements(ids)), b);
    SwapIsStuck(original, plan, a, b, a);
    SwapIsStuck(original, plan, a, b, b);
    forall q, x ensures Blocks(env, s, q, x) <==> (q == a && x == b) || (q == b && x == a) {
      BlocksAtStart(original, plan, cp, ids, q, x);
      SwapHolds(original, plan, a, b, q, x);
    }
  }

  /** The first by name has somewhere to step aside to on the original map. */
  ghost predicate HasRefuge(original: City, target: City, a: string) {
    exists cell :: Legal(Env(original, target, original), PositionsOf(original), a, cell)
  }

  /** A swap is fully resolved exactly when the first by name has a legal place to step aside to. */
  lemma SwapResolvedIffRefuge(original: City, plan: JointPlan, cp: ConstructionPlan, ids: seq<StepId>, a: string,
                              b: string,
                              r: Resolution, trace: seq<StagingState>, tail: seq<Step>, left: set<StepId>)
    requires IsDiff(original, plan) && Buildable(original, plan.result) && SwapPlan(original, plan, a, b)
    requires Planned(original, plan, cp, ids) && Answers(original, plan, cp, r, trace, tail, left)
    ensures r.Resolved? && (r.plan.unresolved == [] <==> HasRefuge(original, plan.result, a))
  {
    SwapPending(original, plan, cp, ids, a, b);
    SwapLoopEnds(original, plan, cp, ids, a, b, r, trace, tail, left);
    if HasRefuge(original, plan.result, a) {
      HomeIsResolved(original, plan, cp, ids, r, trace, tail, left);
    } else {
      StillPending(original, plan, cp, r, trace, tail, left);
    }
  }

  lemma SwapLoopEnds(original: City, plan: JointPlan, cp: ConstructionPlan, ids: seq<StepId>, a: string, b: string,
                     r: Resolution, trace: seq<StagingState>, tail: seq<Step>, left: set<StepId>)
    requires IsDiff(original, plan) && Buildable(original, plan.result) && SwapPlan(original, plan, a, b)
    requires Planned(original, plan, cp, ids) && Answers(original, plan, cp, r, trace, tail, left)
    requires UnresolvedMoves(cp.unresolved).Keys == {a, b}
    ensures r.Resolved? && trace != []
    ensures trace[|trace| - 1].pending == map[] <==> HasRefuge(original, plan.result, a)
  {
    AnswerRuns(original, plan, cp, ids, r, trace, tail, left);
    var env, s, t := EnvOf(original, plan, ids), StartOf(original, plan, cp, ids), trace[|trace| - 1];
    assert RunTo(env, s, t);
    StartIsAimed(original, plan, cp, ids);
    StartIsSwapping(original, plan, cp, ids, a, b);
    SwapResolvedExactly(env, s, a, b, t);
    SwapOrdersNothing(original, plan, cp, ids, a, b);
    NothingDone(original, plan.result);
  }

  // ---- Two cells by the road, two more free ---------------------------------------

  const Lane: City := City(4, 2, {Point(0, 1), Point(1, 1), Point(2, 1), Point(3, 1)}, {},
    [Building(Witnesses.Spec("a", 1), Point(0, 0)), Building(Witnesses.Spec("b", 1), Point(1, 0))])

  const LaneTarget: City := Lane.(buildings :=
    [Building(Witnesses.Spec("a", 1), Point(1, 0)), Building(Witnesses.Spec("b", 1), Point(0, 0))])

  const Exchange: JointPlan := JointPlan(0.0, 1.0,
    [LayoutMove("a", Point(0, 0), Point(1, 0)), LayoutMove("b", Point(1, 0), Point(0, 0))], [], LaneTarget)

  lemma LaneCells()
    ensures Lane.buildings[0].Footprint() == LaneTarget.buildings[1].Footprint() == {Point(0, 0)}
    ensures Lane.buildings[1].Footprint() == LaneTarget.buildings[0].Footprint() == {Point(1, 0)}
  {
    Witnesses.OneCell(Lane.buildings[0]);
    Witnesses.OneCell(Lane.buildings[1]);
    Witnesses.OneCell(LaneTarget.buildings[0]);
    Witnesses.OneCell(LaneTarget.buildings[1]);
  }

  lemma LaneSpecs()
    ensures forall i ::
      0 <= i < 2 ==> Lane.buildings[i].spec.Valid() && LaneTarget.buildings[i].spec == Lane.buildings[i].spec
    ensures UniqueIds(Lane.buildings) && UniqueIds(LaneTarget.buildings)
  {
    assert 'a' in "a" && 'b' in "b";
  }

  lemma LaneFits(i: nat)
    requires i < 2
    ensures Lane.Fits(Lane.buildings[i]) && LaneTarget.Fits(LaneTarget.buildings[i])
  {
    LaneCells();
  }

  lemma LaneApart()
    ensures Disjoint(Lane.buildings[0], Lane.buildings[1]) && Disjoint(LaneTarget.buildings[0], LaneTarget.buildings[1])
  {
    LaneCells();
  }

  lemma LaneIsValid()
    ensures Lane.Valid() && LaneTarget.Valid()
  {
    LaneSpecs();
    LaneApart();
    forall i: nat | i < 2
      ensures Lane.Fits(Lane.buildings[i]) && LaneTarget.Fits(LaneTarget.buildings[i])
    {
      LaneFits(i);
    }
  }

  lemma LaneNames()
    ensures IndexOf(Lane.buildings, "a") == Some(0) && IndexOf(LaneTarget.buildings, "a") == Some(0)
    ensures IndexOf(Lane.buildings, "b") == Some(1) && IndexOf(LaneTarget.buildings, "b") == Some(1)
  {
    LaneSpecs();
    IndexOfUnique(Lane.buildings, 0);
    IndexOfUnique(Lane.buildings, 1);
    IndexOfUnique(LaneTarget.buildings, 0);
    IndexOfUnique(LaneTarget.buildings, 1);
  }

  lemma ExchangeMoves()
    ensures Moved(Exchange.moves) == {"a", "b"}
    ensures forall k :: 0 <= k < 2 ==>
      Exchange.moves[k]
        == LayoutMove(Lane.buildings[k].spec.id, Lane.buildings[k].origin, LaneTarget.buildings[k].origin)
  {
    assert Exchange.moves[0] in Exchange.moves && Exchange.moves[1] in Exchange.moves;
  }

  lemma ExchangeMoveIsDiff(m: LayoutMove)
    requires m in Exchange.moves && SameCatalog(Lane, LaneTarget)
    ensures MoveIsDiff(Lane, LaneTarget, m)
  {
    ExchangeMoves();
    var k :| 0 <= k < |Exchange.moves| && Exchange.moves[k] == m;
    assert Displaced(Lane, LaneTarget, k);
  }

  lemma ExchangeIsDiff()
    ensures IsDiff(Lane, Exchange)
  {
    LaneIsValid();
    LaneSpecs();
    ExchangeMoves();
    forall m | m in Exchange.moves ensures MoveIsDiff(Lane, LaneTarget, m) { ExchangeMoveIsDiff(m); }
  }

  lemma ExchangeIsBuildable()
    ensures IsDiff(Lane, Exchange) && Buildable(Lane, LaneTarget)
  {
    ExchangeIsDiff();
    LaneCells();
    forall i | 0 <= i < 2 ensures CanArrive(Lane, LaneTarget, i) {
      var o := LaneTarget.buildings[i].origin;
      assert o in LaneTarget.buildings[i].Footprint() && Adjacent(o, Point(o.x, 1));
      assert LaneTarget.buildings[i].Beside(Point(o.x, 1));
      assert Point(o.x, 1) in Lane.roads + LaneTarget.roads;
    }
  }

  lemma ExchangeIsSwap()
    ensures SwapPlan(Lane, Exchange, "a", "b")
  {
    LaneCells();
    LaneNames();
    ExchangeMoves();
    assert Edited(Exchange.edits, Build) == {} && Edited(Exchange.edits, Remove) == {};
    assert Point(1, 0) in FootprintOf(LaneTarget, "a") * FootprintOf(Lane, "b");
    assert Point(0, 0) in FootprintOf(LaneTarget, "b") * FootprintOf(Lane, "a");
  }

  lemma LaneRefuge()
    ensures HasRefuge(Lane, LaneTarget, "a")
  {
    LaneNames();
    LaneCells();
    var b := Lane.buildings[0].(origin := Point(2, 0));
    Witnesses.OneCell(b);
    assert Point(2, 0) in b.Footprint() && Adjacent(Point(2, 0), Point(2, 1));
    assert b.Beside(Point(2, 1));
    LaneClear(PositionsOf(Lane), b.Footprint());
    assert Legal(Env(Lane, LaneTarget, Lane), PositionsOf(Lane), "a", Point(2, 0));
  }

  lemma LaneClear(pos: map<string, Point>, cells: set<Point>)
    requires cells == {Point(2, 0)} && pos == PositionsOf(Lane)
    ensures ClearOf(Lane, pos, "a", cells)
  {
    LaneNames();
    LaneCells();
    assert Lane.buildings[1] == Lane.buildings[1].(origin := Point(1, 0));
    assert Ids(Lane.buildings) <= {"a", "b"};
  }

  /** Whatever order the planner and the solver settle on, the two change places. */
  lemma ExchangeReachesTarget(cp: ConstructionPlan, ids: seq<StepId>, r: Resolution,
                              trace: seq<StagingState>, tail: seq<Step>, left: set<StepId>)
    requires Planned(Lane, Exchange, cp, ids) && Answers(Lane, Exchange, cp, r, trace, tail, left)
    ensures cp.unresolved != [] && r.Resolved? && r.plan.unresolved == []
    ensures Replay(Lane, r.plan.ordered) == Success(LaneTarget) && DependenciesMet(r.plan.ordered)
  {
    ExchangeIsBuildable();
    ExchangeIsSwap();
    LaneRefuge();
    SwapPending(Lane, Exchange, cp, ids, "a", "b");
    assert "a" in UnresolvedMoves(cp.unresolved);
    SwapResolvedIffRefuge(Lane, Exchange, cp, ids, "a", "b", r, trace, tail, left);
    ResolvedReachesTarget(Lane, Exchange, cp, ids, r, trace, tail, left);
  }

  // ---- Room for both -----------------------------------------------------------------

  lemma LaneAt(id: string, o: Point)
    requires id in {"a", "b"}
    ensures At(Lane, id, o) == {o}
  {
    LaneNames();
    Witnesses.OneCell(Lane.buildings[if id == "a" then 0 else 1].(origin := o));
  }

  lemma LaneSpot(id: string, o: Point)
    requires id in {"a", "b"} && o in {Point(2, 0), Point(3, 0)}
    ensures Legal(Env(Lane, LaneTarget, Lane), map[], id, o)
  {
    LaneNames();
    LaneCells();
    var b := Lane.buildings[if id == "a" then 0 else 1].(origin := o);
    Witnesses.OneCell(b);
    assert o in b.Footprint() && Adjacent(o, Point(o.x, 1));
    assert b.Beside(Point(o.x, 1));
  }

  lemma LaneRefuges(s: StagingState, x: string)
    requires s.pos.Keys == s.pending.Keys == {"a", "b"} && x in s.pending
    ensures Refuges(Env(Lane, LaneTarget, Lane), s, x, {Point(2, 0), Point(3, 0)})
  {
    var cells := {Point(2, 0), Point(3, 0)};
    forall c | c in cells ensures Legal(Env(Lane, LaneTarget, Lane), map[], x, c) { LaneSpot(x, c); }
    forall c, d, o, y | c in cells && d in cells && c != d && o in s.pending && o != x
      ensures !(Meets(Lane, o, y, x, c) && Meets(Lane, o, y, x, d))
    {
      LaneAt(o, y);
      LaneAt(x, c);
      LaneAt(x, d);
    }
  }

  lemma LaneHasRoom(s: StagingState)
    requires s.pos.Keys == s.pending.Keys == {"a", "b"}
    ensures HasRoom(Env(Lane, LaneTarget, Lane), s)
  {
    assert |s.pending.Keys| == 2;
    forall x | x in s.pending
      ensures exists cells :: Refuges(Env(Lane, LaneTarget, Lane), s, x, cells) && |cells| >= |s.pending|
    {
      LaneRefuges(s, x);
      assert |{Point(2, 0), Point(3, 0)}| == 2;
    }
  }

  /** In the exchange both have room, so that no search of the run is needed to know how it ends. */
  lemma ExchangeHasRoom(cp: ConstructionPlan, ids: seq<StepId>)
    requires Planned(Lane, Exchange, cp, ids)
    ensures HasRoom(EnvOf(Lane, Exchange, ids), StartOf(Lane, Exchange, cp, ids))
  {
    ExchangeIsSwap();
    ExchangeIsDiff();
    SwapPending(Lane, Exchange, cp, ids, "a", "b");
    SwapOrdersNothing(Lane, Exchange, cp, ids, "a", "b");
    NothingDone(Lane, LaneTarget);
    LaneIds();
    LaneHasRoom(StartOf(Lane, Exchange, cp, ids));
  }

  lemma LaneIds()
    ensures PositionsOf(Lane).Keys == {"a", "b"}
  {
    assert Lane.buildings[0].spec.id == "a" && Lane.buildings[1].spec.id == "b";
  }
}
