/** When the planner's order can be carried out on the map, and where it leads. */
module Buildability {
  import opened Wrappers
  import opened CityMap
  import opened Construction
  import opened Coordinates
  import opened Topology
  import opened Planner

  // ---- Plans that describe the difference of two maps --------------------------------

  /** Same grid, same buildings in the same order; only positions and roads may differ. */
  ghost predicate SameCatalog(original: City, target: City) {
    && original.width == target.width && original.height == target.height && original.blocked == target.blocked
    && |original.buildings| == |target.buildings|
    && forall i :: 0 <= i < |original.buildings| ==> original.buildings[i].spec == target.buildings[i].spec
  }

  ghost predicate Displaced(original: City, target: City, i: int)
    requires SameCatalog(original, target) && 0 <= i < |original.buildings|
  {
    original.buildings[i].origin != target.buildings[i].origin
  }

  ghost predicate MovesAreDiff(original: City, target: City, moves: seq<LayoutMove>)
    requires SameCatalog(original, target)
  {
    && (forall m {:trigger MoveIsDiff(original, target, m)} :: m in moves ==> MoveIsDiff(original, target, m))
    && (forall i {:trigger Displaced(original, target, i)} ::
      0 <= i < |original.buildings| && Displaced(original, target, i) ==>
          original.buildings[i].spec.id in Moved(moves))
  }

  ghost predicate MoveIsDiff(original: City, target: City, m: LayoutMove)
    requires SameCatalog(original, target)
  {
    exists i :: 0 <= i < |original.buildings| && Displaced(original, target, i)
                && m == LayoutMove(original.buildings[i].spec.id, original.buildings[i].origin,
                  target.buildings[i].origin)
  }

  /** The plan lists exactly the moves and road edits that turn `original` into its result. */
  ghost predicate IsDiff(original: City, plan: JointPlan) {
    && original.Valid() && plan.result.Valid()
    && SameCatalog(original, plan.result)
    && MovesAreDiff(original, plan.result, plan.moves)
    && Edited(plan.edits, Build) == plan.result.roads - original.roads
    && Edited(plan.edits, Remove) == original.roads - plan.result.roads
  }

  /** What a displaced building needs, given that roads are only removed after all moves. */
  ghost predicate CanArrive(original: City, target: City, i: int)
    requires SameCatalog(original, target) && 0 <= i < |original.buildings|
  {
    && original.buildings[i].spec.movable
    && target.buildings[i].Touches(original.roads + target.roads)
    && target.buildings[i].Footprint() !! original.roads
  }

  ghost predicate Buildable(original: City, target: City)
    requires SameCatalog(original, target)
  {
    && (forall i {:trigger CanArrive(original, target, i)} ::
      0 <= i < |original.buildings| && Displaced(original, target, i) ==> CanArrive(original, target, i))
    && (forall p :: p in target.roads - original.roads ==> p !in original.blocked)
  }

  // ---- The steps of such a plan ------------------------------------------------------

  lemma {:induction false} MoveStepsOrigin(moves: seq<LayoutMove>, id: string) returns (m: LayoutMove)
    requires id in Moved(moves)
    ensures m in moves && m.building == id
    ensures MoveSteps(moves)[MoveId(id)] == MoveStep(MoveId(id), id, m.source, m.destination, [])
  {
    var front, last := moves[..|moves| - 1], moves[|moves| - 1];
    assert moves == front + [last];
    if last.building == id {
      m := last;
    } else {
      m := MoveStepsOrigin(front, id);
    }
  }

  lemma {:induction false} EditStepsOrigin(edits: seq<RoadEdit>, id: StepId)
    requires id in EditSteps(edits)
    ensures EditSteps(edits)[id] == EditStep(RoadEdit(if id.AddId? then Build else Remove, id.point))
  {
    var front, last := edits[..|edits| - 1], edits[|edits| - 1];
    assert edits == front + [last];
    if EditId(last) != id { EditStepsOrigin(front, id); }
  }

  /** The building a move step of a diff plan is about, and the step's exact contents. */
  lemma MoveStepOf(original: City, plan: JointPlan, id: string) returns (i: nat)
    requires IsDiff(original, plan) && MoveId(id) in Steps(plan)
    ensures i < |original.buildings| && original.buildings[i].spec.id == id
    ensures Displaced(original, plan.result, i)
    ensures IndexOf(original.buildings, id) == Some(i) && IndexOf(plan.result.buildings, id) == Some(i)
    ensures Steps(plan)[MoveId(id)]
         == MoveStep(MoveId(id), id, original.buildings[i].origin, plan.result.buildings[i].origin, [])
  {
    var m := MoveStepsOrigin(plan.moves, id);
    assert MoveIsDiff(original, plan.result, m);
    i :| 0 <= i < |original.buildings| && Displaced(original, plan.result, i)
         && m == LayoutMove(original.buildings[i].spec.id, original.buildings[i].origin,
           plan.result.buildings[i].origin);
    IndexOfUnique(original.buildings, i);
    IndexOfUnique(plan.result.buildings, i);
  }

  lemma RoadStepOf(original: City, plan: JointPlan, id: StepId)
    requires IsDiff(original, plan) && id in Steps(plan) && !id.MoveId?
    ensures id.AddId? ==> id.point in plan.result.roads - original.roads
                          && Steps(plan)[id] == RoadStep(id, BuildRoad, id.point, [])
    ensures id.RemoveId? ==> id.point in original.roads - plan.result.roads
                             && Steps(plan)[id] == RoadStep(id, RemoveRoad, id.point, [])
    ensures id.AddId? || id.RemoveId?
  {
    EditStepsOrigin(plan.edits, id);
  }

  lemma DisplacedHasStep(original: City, plan: JointPlan, i: nat)
    requires IsDiff(original, plan) && i < |original.buildings|
    ensures Displaced(original, plan.result, i) <==> MoveId(original.buildings[i].spec.id) in Steps(plan)
  {
    var id := original.buildings[i].spec.id;
    if MoveId(id) in Steps(plan) {
      var k := MoveStepOf(original, plan, id);
      IndexOfUnique(original.buildings, i);
    }
  }

  // ---- What waits for what in such a plan --------------------------------------------

  lemma DisplacedIsAsked(original: City, plan: JointPlan, i: nat)
    requires IsDiff(original, plan) && i < |original.buildings|
    ensures original.buildings[i].origin != plan.result.buildings[i].origin <==>
            Asked(plan, MoveId(original.buildings[i].spec.id))
  {
    DisplacedHasStep(original, plan, i);
    AskedExactly(plan, MoveId(original.buildings[i].spec.id));
  }

  lemma EditIsAsked(original: City, plan: JointPlan, p: Point)
    requires IsDiff(original, plan)
    ensures Asked(plan, AddId(p)) <==> p in plan.result.roads && p !in original.roads
    ensures Asked(plan, RemoveId(p)) <==> p in original.roads && p !in plan.result.roads
  {
    EditedExactly(plan.edits, Build, p);
    EditedExactly(plan.edits, Remove, p);
    assert p in Edited(plan.edits, Build) <==> p in plan.result.roads - original.roads;
    assert p in Edited(plan.edits, Remove) <==> p in original.roads - plan.result.roads;
  }

  lemma NamedOnce(c: City, i: nat, q: Point)
    requires UniqueIds(c.buildings) && i < |c.buildings|
    ensures NextToBuilding(c, c.buildings[i].spec.id, q) <==> NextTo(c.buildings[i], q)
    ensures CoveredBy(c, c.buildings[i].spec.id, q) <==> Inside(c.buildings[i], q)
  {
    assert forall k :: 0 <= k < |c.buildings| && c.buildings[k].spec.id == c.buildings[i].spec.id ==> k == i;
  }

  /** A move waits for a new road exactly when the road is one step from a target cell of the building. */
  lemma MoveWaitsForRoad(original: City, plan: JointPlan, i: nat, p: Point)
    requires IsDiff(original, plan) && i < |original.buildings|
    requires original.buildings[i].origin != plan.result.buildings[i].origin
    ensures MoveId(original.buildings[i].spec.id) in DependencyGraph(original, plan)
    ensures AddId(p) in DependencyGraph(original, plan)[MoveId(original.buildings[i].spec.id)] <==>
      && p in plan.result.roads && p !in original.roads
      && exists q {:trigger Inside(plan.result.buildings[i], q)} ::
        Inside(plan.result.buildings[i], q) && Abs(q.x - p.x) + Abs(q.y - p.y) == 1
  {
    DisplacedHasStep(original, plan, i);
    EdgesExactly(original, plan, MoveId(original.buildings[i].spec.id), AddId(p));
    EditIsAsked(original, plan, p);
    NamedOnce(plan.result, i, p);
    assert plan.result.buildings[i].spec == original.buildings[i].spec;
    assert forall q :: StepsApart(q, p) == Abs(q.x - p.x) + Abs(q.y - p.y);
    assert NextTo(plan.result.buildings[i], p) <==> exists q {:trigger Inside(plan.result.buildings[i], q)} ::
      Inside(plan.result.buildings[i], q) && Abs(q.x - p.x) + Abs(q.y - p.y) == 1;
  }

  /** A move waits for another exactly when that building stood on one of its target cells and moves too. */
  lemma MoveWaitsForMove(original: City, plan: JointPlan, i: nat, j: nat)
    requires IsDiff(original, plan) && i < |original.buildings| && j < |original.buildings|
    requires original.buildings[i].origin != plan.result.buildings[i].origin
    ensures MoveId(original.buildings[i].spec.id) in DependencyGraph(original, plan)
    ensures MoveId(original.buildings[j].spec.id)
            in DependencyGraph(original, plan)[MoveId(original.buildings[i].spec.id)] <==>
      && i != j && original.buildings[j].origin != plan.result.buildings[j].origin
      && exists q :: Inside(plan.result.buildings[i], q) && Inside(original.buildings[j], q)
  {
    var a, b := original.buildings[i].spec.id, original.buildings[j].spec.id;
    DisplacedHasStep(original, plan, i);
    EdgesExactly(original, plan, MoveId(a), MoveId(b));
    DisplacedIsAsked(original, plan, j);
    assert plan.result.buildings[i].spec == original.buildings[i].spec;
    ShareCellOnce(original, plan.result, i, j);
    assert a == b <==> i == j;
  }

  lemma ShareCellOnce(original: City, target: City, i: nat, j: nat)
    requires UniqueIds(original.buildings) && UniqueIds(target.buildings)
    requires i < |target.buildings| && j < |original.buildings|
    ensures ShareCell(target, target.buildings[i].spec.id, original, original.buildings[j].spec.id) <==>
            exists q :: Inside(target.buildings[i], q) && Inside(original.buildings[j], q)
  {
    assert forall k ::
      0 <= k < |target.buildings| && target.buildings[k].spec.id == target.buildings[i].spec.id ==> k == i;
    assert forall k ::
      0 <= k < |original.buildings| && original.buildings[k].spec.id == original.buildings[j].spec.id ==> k == j;
  }

  /** A new road waits for exactly the moves of the buildings on its cell, and for nothing else. */
  lemma RoadWaitsForMove(original: City, plan: JointPlan, p: Point, b: StepId)
    requires IsDiff(original, plan) && p in plan.result.roads && p !in original.roads
    ensures AddId(p) in DependencyGraph(original, plan)
    ensures b in DependencyGraph(original, plan)[AddId(p)] <==>
      exists j :: 0 <= j < |original.buildings| && b == MoveId(original.buildings[j].spec.id)
                  && original.buildings[j].origin != plan.result.buildings[j].origin && Inside(original.buildings[j], p)
  {
    EditIsAsked(original, plan, p);
    AskedExactly(plan, AddId(p));
    EdgesExactly(original, plan, AddId(p), b);
    if b in DependencyGraph(original, plan)[AddId(p)] {
      var j :| 0 <= j < |original.buildings| && original.buildings[j].spec.id == b.building
               && Inside(original.buildings[j], p);
      DisplacedIsAsked(original, plan, j);
    }
    if j :| 0 <= j < |original.buildings| && b == MoveId(original.buildings[j].spec.id)
            && original.buildings[j].origin != plan.result.buildings[j].origin && Inside(original.buildings[j], p)
    {
      DisplacedIsAsked(original, plan, j);
      assert CoveredBy(original, b.building, p);
    }
  }

  /** A removal waits for every move and every new road; a move never waits for a removal. */
  lemma RemovalWaitsForAll(original: City, plan: JointPlan, p: Point, b: StepId)
    requires IsDiff(original, plan) && p in original.roads && p !in plan.result.roads
    ensures RemoveId(p) in DependencyGraph(original, plan)
    ensures b in DependencyGraph(original, plan)[RemoveId(p)] <==>
      || (b.AddId? && b.point in plan.result.roads && b.point !in original.roads)
      || (b.MoveId? && exists j :: 0 <= j < |original.buildings| && b.building == original.buildings[j].spec.id
                                   && original.buildings[j].origin != plan.result.buildings[j].origin)
    ensures forall a :: a in DependencyGraph(original, plan) ==> RemoveId(p) !in DependencyGraph(original, plan)[a]
  {
    EditIsAsked(original, plan, p);
    AskedExactly(plan, RemoveId(p));
    EdgesExactly(original, plan, RemoveId(p), b);
    if b.AddId? { EditIsAsked(original, plan, b.point); }
    if b.MoveId? {
      if Asked(plan, b) {
        AskedExactly(plan, b);
        var j := MoveStepOf(original, plan, b.building);
      }
      if j :| 0 <= j < |original.buildings| && b.building == original.buildings[j].spec.id
              && original.buildings[j].origin != plan.result.buildings[j].origin
      {
        DisplacedIsAsked(original, plan, j);
      }
    }
    forall a | a in DependencyGraph(original, plan) ensures RemoveId(p) !in DependencyGraph(original, plan)[a] {
      EdgesExactly(original, plan, a, RemoveId(p));
    }
  }

  // ---- The map after a set of steps --------------------------------------------------

  function OriginOf(c: City, id: string): Point {
    match IndexOf(c.buildings, id)
    case None => Point(0, 0)
    case Some(i) => c.buildings[i].origin
  }

  /** Buildings whose move is in `done` stand at their target, the others where they stood. */
  function PositionsAfter(original: City, target: City, done: set<StepId>): (pos: map<string, Point>)
    ensures Positions(original, pos)
  {
    map id | id in Ids(original.buildings) ::
      if MoveId(id) in done then OriginOf(target, id) else OriginOf(original, id)
  }

  function RoadsAfter(original: City, target: City, done: set<StepId>): set<Point> {
    (set p | p in original.roads && RemoveId(p) !in done) + (set p | p in target.roads && AddId(p) in done)
  }

  function MapAfter(original: City, target: City, done: set<StepId>): City {
    Place(original, PositionsAfter(original, target, done), RoadsAfter(original, target, done))
  }

  lemma PositionAfter(original: City, target: City, done: set<StepId>, i: nat)
    requires original.Valid() && target.Valid() && SameCatalog(original, target) && i < |original.buildings|
    ensures PositionsAfter(original, target, done)[original.buildings[i].spec.id]
         == if MoveId(original.buildings[i].spec.id) in done
           then target.buildings[i].origin else original.buildings[i].origin
  {
    IndexOfUnique(original.buildings, i);
    IndexOfUnique(target.buildings, i);
  }

  lemma NothingDone(original: City, target: City)
    requires original.Valid() && target.Valid() && SameCatalog(original, target)
    ensures MapAfter(original, target, {}) == original
  {
    forall i | 0 <= i < |original.buildings|
      ensures MapAfter(original, target, {}).buildings[i] == original.buildings[i]
    {
      PositionAfter(original, target, {}, i);
    }
    assert RoadsAfter(original, target, {}) == original.roads;
  }

  lemma AllDone(original: City, plan: JointPlan, done: set<StepId>)
    requires IsDiff(original, plan) && done == Steps(plan).Keys
    ensures MapAfter(original, plan.result, done) == plan.result
  {
    forall i | 0 <= i < |original.buildings|
      ensures MapAfter(original, plan.result, done).buildings[i] == plan.result.buildings[i]
    {
      PositionAfter(original, plan.result, done, i);
      DisplacedHasStep(original, plan, i);
    }
    forall p ensures p in RoadsAfter(original, plan.result, done) <==> p in plan.result.roads {
      assert AddId(p) in done <==> p in plan.result.roads - original.roads;
      assert RemoveId(p) in done <==> p in original.roads - plan.result.roads;
    }
  }

  // ---- One step ----------------------------------------------------------------------

  /** Steps done so far, none before its dependencies. */
  ghost predicate DownClosed(g: Graph, done: set<StepId>) {
    forall a :: a in done ==> a in g && g[a] <= done
  }

  /** As long as some move is left, every original road is still there. */
  lemma RoadsKeptUntilMovesDone(original: City, plan: JointPlan, done: set<StepId>, id: string)
    requires IsDiff(original, plan) && DownClosed(DependencyGraph(original, plan), done)
    requires MoveId(id) in Steps(plan) && MoveId(id) !in done
    ensures original.roads <= RoadsAfter(original, plan.result, done)
  {
    var g := DependencyGraph(original, plan);
    forall p | p in original.roads ensures RemoveId(p) !in done {
      if RemoveId(p) in g { assert MoveId(id) in g[RemoveId(p)]; }
    }
  }

  lemma RoadsAfterBounded(original: City, plan: JointPlan, done: set<StepId>)
    requires IsDiff(original, plan)
    ensures RoadsAfter(original, plan.result, done) <= original.roads + plan.result.roads
  {
  }

  /** Moving building `i` home is legal once nothing stands in the way and a road is there. */
  lemma ArrivalIsLegal(original: City, target: City, pos: map<string, Point>, roads: set<Point>, i: nat)
    requires target.Valid() && SameCatalog(original, target) && i < |original.buildings|
    requires Positions(original, pos) && Place(original, pos, roads).Valid()
    requires roads <= original.roads + target.roads && target.buildings[i].Footprint() !! original.roads
    requires forall j :: 0 <= j < |original.buildings| && j != i ==>
      Disjoint(original.buildings[j].(origin := pos[original.buildings[j].spec.id]), target.buildings[i])
    ensures Place(original, pos[original.buildings[i].spec.id := target.buildings[i].origin], roads).Valid()
    ensures Place(original, pos[original.buildings[i].spec.id := target.buildings[i].origin], roads).buildings[i]
         == target.buildings[i]
  {
    var c := Place(original, pos, roads);
    PlaceIsUpdate(original, pos, roads, i, target.buildings[i].origin);
    var b := target.buildings[i];
    assert WithOrigin(c, i, b.origin).buildings[i] == b;
    forall p | p in b.Footprint() ensures c.InBounds(p) && p !in c.OccupiedCells(Some(b.spec.id)) {
      assert target.Fits(b);
      forall j | 0 <= j < |c.buildings| && c.buildings[j].spec.id != b.spec.id
        ensures p !in c.buildings[j].Footprint()
      {
        assert Disjoint(c.buildings[j], b);
      }
    }
    PlaceableIsValid(c, i, b.origin, false);
  }

  lemma TargetsDisjoint(c: City, i: nat, j: nat)
    requires c.Valid() && i < |c.buildings| && j < |c.buildings| && i != j
    ensures Disjoint(c.buildings[j], c.buildings[i])
  {
    assert Disjoint(c.buildings[if i < j then i else j], c.buildings[if i < j then j else i]);
  }

  lemma Edge(original: City, plan: JointPlan, a: StepId, b: StepId)
    requires a in Steps(plan) && b in Steps(plan)
    ensures b in DependencyGraph(original, plan)[a] <==> Waits(original, plan.result, a, b)
  {
  }

  /** A move that need not wait for another does not land on it. */
  lemma NoWaitNoOverlap(original: City, target: City, i: nat, j: nat)
    requires UniqueIds(original.buildings) && UniqueIds(target.buildings)
    requires i < |target.buildings| && j < |original.buildings|
    requires target.buildings[i].spec.id != original.buildings[j].spec.id
    requires !Waits(original, target, MoveId(target.buildings[i].spec.id), MoveId(original.buildings[j].spec.id))
    ensures Disjoint(original.buildings[j], target.buildings[i])
  {
    IndexOfUnique(target.buildings, i);
    IndexOfUnique(original.buildings, j);
    var both := target.buildings[i].Footprint() * original.buildings[j].Footprint();
    assert both == {};
    assert forall p :: p in original.buildings[j].Footprint() && p in target.buildings[i].Footprint() ==> p in both;
  }

  /** In the planner's order, whoever still stands at its origin is out of the mover's way. */
  lemma OthersOutOfTheWay(original: City, plan: JointPlan, done: set<StepId>, i: nat, j: nat)
    requires IsDiff(original, plan) && i < |original.buildings| && j < |original.buildings| && i != j
    requires MoveId(original.buildings[i].spec.id) in Steps(plan)
    requires DependencyGraph(original, plan)[MoveId(original.buildings[i].spec.id)] <= done
    ensures Disjoint(MapAfter(original, plan.result, done).buildings[j], plan.result.buildings[i])
  {
    var x, y := original.buildings[i].spec.id, original.buildings[j].spec.id;
    PositionAfter(original, plan.result, done, j);
    TargetsDisjoint(plan.result, i, j);
    DisplacedHasStep(original, plan, j);
    if MoveId(y) in Steps(plan) && MoveId(y) !in done {
      Edge(original, plan, MoveId(x), MoveId(y));
      NoWaitNoOverlap(original, plan.result, i, j);
    }
  }

  /** A new road beside the destination is built before the move. */
  lemma NewRoadInTime(original: City, plan: JointPlan, done: set<StepId>, i: nat, q: Point)
    requires IsDiff(original, plan) && i < |original.buildings|
    requires MoveId(original.buildings[i].spec.id) in Steps(plan)
    requires forall p ::
      AddId(p) in DependencyGraph(original, plan)[MoveId(original.buildings[i].spec.id)] ==> AddId(p) in done
    requires q in plan.result.roads - original.roads && plan.result.buildings[i].Beside(q)
    ensures AddId(q) in done
  {
    IndexOfUnique(plan.result.buildings, i);
    assert AddId(q) in Steps(plan);
    Edge(original, plan, MoveId(original.buildings[i].spec.id), AddId(q));
  }

  /** A target position that touches an original or a target road touches a road by then. */
  lemma AccessInTime(original: City, plan: JointPlan, done: set<StepId>, i: nat)
    requires IsDiff(original, plan) && i < |original.buildings|
    requires MoveId(original.buildings[i].spec.id) in Steps(plan)
    requires original.roads <= RoadsAfter(original, plan.result, done)
    requires forall p ::
      AddId(p) in DependencyGraph(original, plan)[MoveId(original.buildings[i].spec.id)] ==> AddId(p) in done
    requires plan.result.buildings[i].Touches(original.roads + plan.result.roads)
    ensures plan.result.buildings[i].Touches(RoadsAfter(original, plan.result, done))
  {
    var q :| q in original.roads + plan.result.roads && plan.result.buildings[i].Beside(q);
    if q !in original.roads { NewRoadInTime(original, plan, done, i, q); }
    assert q in RoadsAfter(original, plan.result, done);
  }

  lemma PositionsExtend(original: City, target: City, done: set<StepId>, i: nat)
    requires UniqueIds(target.buildings) && i < |target.buildings| && i < |original.buildings|
    requires original.buildings[i].spec.id == target.buildings[i].spec.id
    ensures var id := target.buildings[i].spec.id;
      PositionsAfter(original, target, done + {MoveId(id)})
      == PositionsAfter(original, target, done)[id := target.buildings[i].origin]
  {
    var id := target.buildings[i].spec.id;
    IndexOfUnique(target.buildings, i);
    var after, before := PositionsAfter(original, target, done + {MoveId(id)}), PositionsAfter(original, target, done);
    assert id in Ids(original.buildings);
    forall x | x in after ensures after[x] == before[id := target.buildings[i].origin][x] {
      if x != id { assert MoveId(x) in done + {MoveId(id)} <==> MoveId(x) in done; }
    }
  }

  lemma MoveExtends(original: City, target: City, done: set<StepId>, i: nat)
    requires UniqueIds(target.buildings) && i < |target.buildings| && i < |original.buildings|
    requires original.buildings[i].spec.id == target.buildings[i].spec.id
    ensures var id := original.buildings[i].spec.id;
      Place(original, PositionsAfter(original, target, done)[id := target.buildings[i].origin],
        RoadsAfter(original, target, done))
      == MapAfter(original, target, done + {MoveId(id)})
  {
    var id := original.buildings[i].spec.id;
    PositionsExtend(original, target, done, i);
    assert RoadsAfter(original, target, done + {MoveId(id)}) == RoadsAfter(original, target, done);
  }

  lemma AddExtends(original: City, target: City, done: set<StepId>, p: Point)
    requires p in target.roads
    ensures PositionsAfter(original, target, done + {AddId(p)}) == PositionsAfter(original, target, done)
    ensures RoadsAfter(original, target, done + {AddId(p)}) == RoadsAfter(original, target, done) + {p}
  {
  }

  lemma RemoveExtends(original: City, target: City, done: set<StepId>, p: Point)
    requires p !in target.roads
    ensures PositionsAfter(original, target, done + {RemoveId(p)}) == PositionsAfter(original, target, done)
    ensures RoadsAfter(original, target, done + {RemoveId(p)}) == RoadsAfter(original, target, done) - {p}
  {
  }

  /** A step of the plan, its dependencies attached. */
  function PlanStep(original: City, plan: JointPlan, a: StepId): Step
    requires a in Steps(plan)
  {
    WithDependencies(Steps(plan)[a], DependencyGraph(original, plan)[a])
  }

  /** The plan's next step, tried on the map the done ones lead to. */
  function TryNext(original: City, plan: JointPlan, done: set<StepId>, a: StepId): Result<City, StepError>
    requires a in Steps(plan)
  {
    ApplyExpected(MapAfter(original, plan.result, done), PlanStep(original, plan, a))
  }

  lemma MoveNext(original: City, plan: JointPlan, done: set<StepId>, id: string) returns (i: nat)
    requires IsDiff(original, plan) && DownClosed(DependencyGraph(original, plan), done)
    requires MapAfter(original, plan.result, done).Valid()
    requires MoveId(id) in Steps(plan) && MoveId(id) !in done && DependencyGraph(original, plan)[MoveId(id)] <= done
    ensures i < |original.buildings| && original.buildings[i].spec.id == id && Displaced(original, plan.result, i)
    ensures TryNext(original, plan, done, MoveId(id)).Success? <==> CanArrive(original, plan.result, i)
    ensures TryNext(original, plan, done, MoveId(id)).Success? ==>
      TryNext(original, plan, done, MoveId(id)).value == MapAfter(original, plan.result, done + {MoveId(id)})
  {
    i := MoveStepOf(original, plan, id);
    var pos, roads := PositionsAfter(original, plan.result, done), RoadsAfter(original, plan.result, done);
    PositionAfter(original, plan.result, done, i);
    MoveApplies(original, pos, roads, i, PlanStep(original, plan, MoveId(id)));
    MoveExtends(original, plan.result, done, i);
    RoadsKeptUntilMovesDone(original, plan, done, id);
    MoveArrives(original, plan, done, i);
  }

  lemma MoveArrives(original: City, plan: JointPlan, done: set<StepId>, i: nat)
    requires IsDiff(original, plan) && DownClosed(DependencyGraph(original, plan), done)
    requires MapAfter(original, plan.result, done).Valid()
    requires i < |original.buildings| && Displaced(original, plan.result, i)
    requires MoveId(original.buildings[i].spec.id) in Steps(plan) && MoveId(original.buildings[i].spec.id) !in done
    requires DependencyGraph(original, plan)[MoveId(original.buildings[i].spec.id)] <= done
    ensures var id := original.buildings[i].spec.id;
      var next := Place(original, PositionsAfter(original, plan.result, done)[id := plan.result.buildings[i].origin],
                        RoadsAfter(original, plan.result, done));
      CanArrive(original, plan.result, i) <==>
        original.buildings[i].spec.movable && next.Valid()
          && next.buildings[i].Touches(RoadsAfter(original, plan.result, done))
  {
    var id, target := original.buildings[i].spec.id, plan.result;
    var pos, roads := PositionsAfter(original, target, done), RoadsAfter(original, target, done);
    var next := Place(original, pos[id := target.buildings[i].origin], roads);
    assert next.buildings[i] == target.buildings[i];
    RoadsKeptUntilMovesDone(original, plan, done, id);
    RoadsAfterBounded(original, plan, done);
    if CanArrive(original, target, i) {
      forall j | 0 <= j < |original.buildings| && j != i
        ensures Disjoint(original.buildings[j].(origin := pos[original.buildings[j].spec.id]), target.buildings[i])
      {
        OthersOutOfTheWay(original, plan, done, i, j);
      }
      ArrivalIsLegal(original, target, pos, roads, i);
      assert forall p :: AddId(p) in DependencyGraph(original, plan)[MoveId(id)] ==> AddId(p) in done;
      AccessInTime(original, plan, done, i);
    }
    if next.Valid() { assert next.Fits(next.buildings[i]); }
  }

  lemma RoadApplies(c: City, step: Step, p: Point)
    requires step.kind == BuildRoad && step.point == Some(p) && c.InBounds(p) && p !in c.roads
    requires forall j :: 0 <= j < |c.buildings| ==> p !in c.buildings[j].Footprint()
    ensures ApplyExpected(c, step)
         == if p in c.blocked then Failure(PointBlocked) else Success(c.(roads := c.roads + {p}))
  {
  }

  lemma AddNext(original: City, plan: JointPlan, done: set<StepId>, p: Point)
    requires IsDiff(original, plan)
    requires AddId(p) in Steps(plan) && AddId(p) !in done && DependencyGraph(original, plan)[AddId(p)] <= done
    ensures TryNext(original, plan, done, AddId(p)).Success? <==> p !in original.blocked
    ensures TryNext(original, plan, done, AddId(p)).Success? ==>
      TryNext(original, plan, done, AddId(p)).value == MapAfter(original, plan.result, done + {AddId(p)})
  {
    RoadStepOf(original, plan, AddId(p));
    var c := MapAfter(original, plan.result, done);
    assert p !in c.roads;
    assert plan.result.InBounds(p);
    forall j | 0 <= j < |c.buildings| ensures p !in c.buildings[j].Footprint() {
      NewRoadIsFree(original, plan, done, p, j);
    }
    RoadApplies(c, PlanStep(original, plan, AddId(p)), p);
    AddExtends(original, plan.result, done, p);
  }

  lemma NewRoadIsFree(original: City, plan: JointPlan, done: set<StepId>, p: Point, j: nat)
    requires IsDiff(original, plan)
    requires AddId(p) in Steps(plan) && DependencyGraph(original, plan)[AddId(p)] <= done
    requires j < |original.buildings|
    ensures p !in MapAfter(original, plan.result, done).buildings[j].Footprint()
  {
    var y := original.buildings[j].spec.id;
    RoadStepOf(original, plan, AddId(p));
    PositionAfter(original, plan.result, done, j);
    assert plan.result.Fits(plan.result.buildings[j]);
    if MoveId(y) !in done && Displaced(original, plan.result, j) {
      DisplacedHasStep(original, plan, j);
      IndexOfUnique(original.buildings, j);
      assert MoveId(y) !in DependencyGraph(original, plan)[AddId(p)];
      assert !Waits(original, plan.result, AddId(p), MoveId(y));
    }
  }

  lemma RemoveNext(original: City, plan: JointPlan, done: set<StepId>, p: Point)
    requires IsDiff(original, plan) && RemoveId(p) in Steps(plan) && RemoveId(p) !in done
    ensures TryNext(original, plan, done, RemoveId(p))
         == Success(MapAfter(original, plan.result, done + {RemoveId(p)}))
  {
    RoadStepOf(original, plan, RemoveId(p));
    RemoveExtends(original, plan.result, done, p);
    assert p in RoadsAfter(original, plan.result, done);
  }

  lemma OnlyOneCalled(bs: seq<Building>, i: nat)
    requires UniqueIds(bs) && i < |bs|
    ensures forall k :: 0 <= k < |bs| && bs[k].spec.id == bs[i].spec.id ==> k == i
  {
  }

  /** What the next step needs, in terms of the two maps alone. */
  ghost predicate StepNeed(original: City, plan: JointPlan, a: StepId)
    requires SameCatalog(original, plan.result)
  {
    match a
    case MoveId(id) => forall i :: 0 <= i < |original.buildings| && original.buildings[i].spec.id == id ==>
                         CanArrive(original, plan.result, i)
    case AddId(p) => p !in original.blocked
    case _ => true
  }

  /** With its dependencies done, a step applies exactly when its need is met, and does what it says. */
  lemma StepNext(original: City, plan: JointPlan, done: set<StepId>, a: StepId)
    requires IsDiff(original, plan) && DownClosed(DependencyGraph(original, plan), done)
    requires MapAfter(original, plan.result, done).Valid()
    requires a in Steps(plan) && a !in done && DependencyGraph(original, plan)[a] <= done
    ensures TryNext(original, plan, done, a).Success? <==> StepNeed(original, plan, a)
    ensures TryNext(original, plan, done, a).Success? ==>
      TryNext(original, plan, done, a).value == MapAfter(original, plan.result, done + {a})
  {
    match a
    case MoveId(id) =>
      var i := MoveNext(original, plan, done, id);
      OnlyOneCalled(original.buildings, i);
    case AddId(p) => AddNext(original, plan, done, p);
    case RemoveId(p) => RemoveNext(original, plan, done, p);
  }

  ghost predicate NeedsMet(original: City, plan: JointPlan, steps: set<StepId>)
    requires SameCatalog(original, plan.result)
  {
    forall a {:trigger StepNeed(original, plan, a)} :: a in steps ==> StepNeed(original, plan, a)
  }

  lemma NeedsAreBuildable(original: City, plan: JointPlan)
    requires IsDiff(original, plan)
    ensures Buildable(original, plan.result) <==> NeedsMet(original, plan, Steps(plan).Keys)
  {
    if Buildable(original, plan.result) {
      forall a | a in Steps(plan) ensures StepNeed(original, plan, a) {
        match a
        case MoveId(id) =>
          var i := MoveStepOf(original, plan, id);
          OnlyOneCalled(original.buildings, i);
        case _ => RoadStepOf(original, plan, a);
      }
    }
    if NeedsMet(original, plan, Steps(plan).Keys) {
      forall i | 0 <= i < |original.buildings| && Displaced(original, plan.result, i)
        ensures CanArrive(original, plan.result, i)
      {
        DisplacedHasStep(original, plan, i);
        assert StepNeed(original, plan, MoveId(original.buildings[i].spec.id));
      }
      forall p | p in plan.result.roads - original.roads ensures p !in original.blocked {
        assert StepNeed(original, plan, AddId(p));
      }
    }
  }
}
