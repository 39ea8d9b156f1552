/** From a target layout to dependency-ordered construction steps. */
module Planner {
  import opened Wrappers
  import opened Orders
  import opened CityMap
  import opened Construction
  import opened Coordinates
  import opened Topology

  datatype LayoutMove = LayoutMove(building: string, source: Point, destination: Point)

  datatype RoadEditKind = Build | Remove

  datatype RoadEdit = RoadEdit(kind: RoadEditKind, point: Point)

  /** A target layout; of its scores only the totals matter here. */
  datatype JointPlan = JointPlan(
    before: real,
    after: real,
    moves: seq<LayoutMove>,
    edits: seq<RoadEdit>,
    result: City)

  datatype PlanError = DimensionsDiffer | KeyError

  // ---- The steps of a plan -----------------------------------------------------------

  function Moved(moves: seq<LayoutMove>): set<string> {
    set m | m in moves :: m.building
  }

  function Edited(edits: seq<RoadEdit>, kind: RoadEditKind): set<Point> {
    set e | e in edits && e.kind == kind :: e.point
  }

  /** One entry per moved building; the last of several moves of one building wins. */
  function MoveSteps(moves: seq<LayoutMove>): (steps: map<StepId, Step>)
    ensures forall id :: id in steps <==> id.MoveId? && id.building in Moved(moves)
  {
    if moves == [] then map[] else
      var front, m := moves[..|moves| - 1], moves[|moves| - 1];
      assert moves == front + [m];
      MoveSteps(front)[MoveId(m.building) := MoveStep(MoveId(m.building), m.building, m.source, m.destination, [])]
  }

  function EditId(e: RoadEdit): StepId {
    if e.kind == Build then AddId(e.point) else RemoveId(e.point)
  }

  function EditStep(e: RoadEdit): Step {
    RoadStep(EditId(e), if e.kind == Build then BuildRoad else RemoveRoad, e.point, [])
  }

  function EditSteps(edits: seq<RoadEdit>): (steps: map<StepId, Step>)
    ensures forall id :: id in steps <==>
      || (id.AddId? && id.point in Edited(edits, Build))
      || (id.RemoveId? && id.point in Edited(edits, Remove))
  {
    if edits == [] then map[] else
      var front, e := edits[..|edits| - 1], edits[|edits| - 1];
      assert edits == front + [e];
      EditSteps(front)[EditId(e) := EditStep(e)]
  }

  function Steps(plan: JointPlan): map<StepId, Step> {
    MoveSteps(plan.moves) + EditSteps(plan.edits)
  }

  // ---- What each step waits for ------------------------------------------------------

  /** The cells of the building called `id`; none when there is no such building. */
  function FootprintOf(c: City, id: string): set<Point> {
    match IndexOf(c.buildings, id)
    case None => {}
    case Some(i) => c.buildings[i].Footprint()
  }

  predicate BesideBuilding(c: City, id: string, p: Point) {
    match IndexOf(c.buildings, id)
    case None => false
    case Some(i) => c.buildings[i].Beside(p)
  }

  /** Step `a` waits for step `b`. */
  predicate Waits(original: City, target: City, a: StepId, b: StepId) {
    match (a, b)
    case (MoveId(x), MoveId(y)) => x != y && FootprintOf(target, x) * FootprintOf(original, y) != {}
    case (MoveId(x), AddId(p)) => BesideBuilding(target, x, p)
    case (AddId(p), MoveId(y)) => p in FootprintOf(original, y)
    case (RemoveId(_), MoveId(_)) => true
    case (RemoveId(_), AddId(_)) => true
    case _ => false
  }

  function DependencyGraph(original: City, plan: JointPlan): (g: Graph)
    ensures Closed(g) && g.Keys == Steps(plan).Keys
  {
    var ids := Steps(plan).Keys;
    map a | a in ids :: set b | b in ids && Waits(original, plan.result, a, b)
  }

  /** A cell is covered by the building called `a` on one map and by the one called `b` on the other. */
  ghost predicate ShareCell(target: City, a: string, original: City, b: string) {
    exists i, j, p {:trigger Inside(target.buildings[i], p), Inside(original.buildings[j], p)} ::
      && 0 <= i < |target.buildings| && target.buildings[i].spec.id == a && Inside(target.buildings[i], p)
      && 0 <= j < |original.buildings| && original.buildings[j].spec.id == b && Inside(original.buildings[j], p)
  }

  ghost predicate CoveredBy(c: City, id: string, p: Point) {
    exists i :: 0 <= i < |c.buildings| && c.buildings[i].spec.id == id && Inside(c.buildings[i], p)
  }

  ghost predicate NextToBuilding(c: City, id: string, p: Point) {
    exists i :: 0 <= i < |c.buildings| && c.buildings[i].spec.id == id && NextTo(c.buildings[i], p)
  }

  /**
   What must come before what, told from the two maps. A move onto cells that another
   building held, a road on such a cell, a move beside a new road, and every removal.
   */
  ghost predicate MustFollow(original: City, target: City, a: StepId, b: StepId) {
    || (a.MoveId? && b.MoveId? && a.building != b.building && ShareCell(target, a.building, original, b.building))
    || (a.MoveId? && b.AddId? && NextToBuilding(target, a.building, b.point))
    || (a.AddId? && b.MoveId? && CoveredBy(original, b.building, a.point))
    || (a.RemoveId? && (b.MoveId? || b.AddId?))
  }

  lemma FootprintOfExactly(c: City, id: string, p: Point)
    requires UniqueIds(c.buildings)
    ensures p in FootprintOf(c, id) <==> CoveredBy(c, id, p)
    ensures BesideBuilding(c, id, p) <==> NextToBuilding(c, id, p)
  {
    match IndexOf(c.buildings, id)
    case None =>
    case Some(i) =>
      assert forall k :: 0 <= k < |c.buildings| && c.buildings[k].spec.id == id ==> k == i;
      BesideIsNextTo(c.buildings[i], p);
      FootprintIsInside(c.buildings[i], p);
  }

  lemma ShareCellExactly(target: City, a: string, original: City, b: string)
    requires UniqueIds(target.buildings) && UniqueIds(original.buildings)
    ensures FootprintOf(target, a) * FootprintOf(original, b) != {} <==> ShareCell(target, a, original, b)
  {
    if FootprintOf(target, a) * FootprintOf(original, b) != {} {
      var p :| p in FootprintOf(target, a) * FootprintOf(original, b);
      FootprintOfExactly(target, a, p);
      FootprintOfExactly(original, b, p);
      assert CoveredBy(target, a, p) && CoveredBy(original, b, p);
    }
    if ShareCell(target, a, original, b) {
      var i, j, p :|
        && 0 <= i < |target.buildings| && target.buildings[i].spec.id == a && Inside(target.buildings[i], p)
        && 0 <= j < |original.buildings| && original.buildings[j].spec.id == b && Inside(original.buildings[j], p);
      FootprintOfExactly(target, a, p);
      FootprintOfExactly(original, b, p);
      assert p in FootprintOf(target, a) * FootprintOf(original, b);
    }
  }

  /** One step waits for another exactly when the maps say it must follow it. */
  lemma WaitsExactly(original: City, target: City, a: StepId, b: StepId)
    requires UniqueIds(original.buildings) && UniqueIds(target.buildings)
    ensures Waits(original, target, a, b) <==> MustFollow(original, target, a, b)
  {
    match (a, b)
    case (MoveId(x), MoveId(y)) => ShareCellExactly(target, x, original, y);
    case (MoveId(x), AddId(p)) => FootprintOfExactly(target, x, p);
    case (AddId(p), MoveId(y)) => FootprintOfExactly(original, y, p);
    case _ =>
  }

  function WithDependencies(step: Step, deps: set<StepId>): Step {
    step.(dependsOn := SortedIds(deps))
  }

  function StepIds(steps: seq<Step>): (r: seq<StepId>)
    ensures |r| == |steps|
  {
    seq(|steps|, k requires 0 <= k < |steps| => steps[k].id)
  }

  function Attach(steps: map<StepId, Step>, g: Graph, ids: seq<StepId>): (r: seq<Step>)
    requires forall k :: 0 <= k < |ids| ==> ids[k] in steps && ids[k] in g
    ensures |r| == |ids|
  {
    seq(|ids|, k requires 0 <= k < |ids| => WithDependencies(steps[ids[k]], g[ids[k]]))
  }

  /** The steps `ids` leaves out, in id order. */
  function Remainder(g: Graph, ids: seq<StepId>): (r: seq<StepId>)
    ensures NoDuplicates(r) && forall x :: x in r <==> x in g && x !in ids
    ensures forall k :: 0 <= k < |r| ==> r[k] in g
  {
    var rest := set x | x in g && x !in ids;
    var r := SortedIds(rest);
    assert forall k :: 0 <= k < |r| ==> r[k] in r;
    r
  }

  /** `cp` runs through `g` in the order `ids`, as far as any order can, and leaves the rest. */
  ghost predicate KahnPlan(steps: map<StepId, Step>, g: Graph, cp: ConstructionPlan, ids: seq<StepId>) {
    && g.Keys == steps.Keys && Ordered(g, ids) && Exhausted(g, ids) && InQueueOrder(g, ids, ids)
    && cp.ordered == Attach(steps, g, ids)
    && cp.unresolved == Attach(steps, g, Remainder(g, ids))
  }

  method TopologicalPlan(steps: map<StepId, Step>, dependencies: map<StepId, set<StepId>>)
    returns (cp: ConstructionPlan, ghost ids: seq<StepId>)
    ensures KahnPlan(steps, Restricted(steps, dependencies), cp, ids)
    ensures exists order :: KahnPlan(steps, Restricted(steps, dependencies), cp, order)
  {
    var g := Restricted(steps, dependencies);
    var order := Kahn(g);
    cp := ConstructionPlan(Attach(steps, g, order), Attach(steps, g, Remainder(g, order)));
    ids := order;
    assert KahnPlan(steps, Restricted(steps, dependencies), cp, ids);
  }

  /** The dependencies that are steps themselves, for every step. */
  function Restricted(steps: map<StepId, Step>, dependencies: map<StepId, set<StepId>>): (g: Graph)
    ensures Closed(g) && g.Keys == steps.Keys
  {
    map id | id in steps :: set d | id in dependencies && d in dependencies[id] && d in steps
  }

  // ---- The builder -------------------------------------------------------------------

  predicate Known(c: City, id: string) {
    IndexOf(c.buildings, id).Some?
  }

  /** Some moved building is missing where the move rules look it up. */
  ghost predicate MoveLookupFails(original: City, target: City, moved: set<string>) {
    exists b :: b in moved && (!Known(target, b) || (!Known(original, b) && moved - {b} != {}))
  }

  /** The builder looks up a building that is not there. */
  ghost predicate LookupFails(original: City, plan: JointPlan) {
    || MoveLookupFails(original, plan.result, Moved(plan.moves))
    || (Edited(plan.edits, Build) != {} && exists b :: b in Moved(plan.moves) && !Known(original, b))
  }

  predicate Holds(original: City, cells: set<Point>, id: string) {
    cells * FootprintOf(original, id) != {}
  }

  /** The moves among `movers` whose original footprint meets `cells`. */
  method MovesHolding(original: City, cells: set<Point>, movers: set<string>) returns (r: Option<set<StepId>>)
    ensures r.None? <==> exists c :: c in movers && !Known(original, c)
    ensures r.Some? ==> forall x: StepId ::
      x in r.value <==> x.MoveId? && x.building in movers && Holds(original, cells, x.building)
  {
    var todo, row := movers, {};
    while todo != {}
      invariant todo <= movers
      invariant forall c :: c in movers - todo ==> Known(original, c)
      invariant forall x: StepId ::
        x in row <==> x.MoveId? && x.building in movers - todo && Holds(original, cells, x.building)
      decreases todo
    {
      var c :| c in todo;
      if !Known(original, c) { return None; }
      if Holds(original, cells, c) { row := row + {MoveId(c)}; }
      todo := todo - {c};
    }
    return Some(row);
  }

  /** The new roads beside the building called `b` in its final place. */
  method RoadsBeside(target: City, b: string, built: set<Point>) returns (row: set<StepId>)
    ensures forall x: StepId :: x in row <==> x.AddId? && x.point in built && BesideBuilding(target, b, x.point)
  {
    var todo := built;
    row := {};
    while todo != {}
      invariant todo <= built
      invariant forall x: StepId ::
        x in row <==> x.AddId? && x.point in built - todo && BesideBuilding(target, b, x.point)
      decreases todo
    {
      var p :| p in todo;
      if BesideBuilding(target, b, p) { row := row + {AddId(p)}; }
      todo := todo - {p};
    }
  }

  /** `row` is what step `a` waits for. */
  ghost predicate Row(original: City, plan: JointPlan, a: StepId, row: set<StepId>) {
    forall b :: b in row <==> b in Steps(plan) && Waits(original, plan.result, a, b)
  }

  ghost predicate Rows(original: City, plan: JointPlan, rows: map<StepId, set<StepId>>) {
    forall a :: a in rows ==> Row(original, plan, a, rows[a])
  }

  /** The layout lists a move of the building, or that edit of the point. */
  ghost predicate Asked(plan: JointPlan, id: StepId) {
    match id
    case MoveId(x) => exists k :: 0 <= k < |plan.moves| && plan.moves[k].building == x
    case AddId(p) => RoadEdit(Build, p) in plan.edits
    case RemoveId(p) => RoadEdit(Remove, p) in plan.edits
    case StageId(_, _) => false
  }

  lemma AskedExactly(plan: JointPlan, id: StepId)
    ensures id in Steps(plan) <==> Asked(plan, id)
  {
    match id
    case MoveId(x) =>
      if x in Moved(plan.moves) {
        var m :| m in plan.moves && m.building == x;
        var k :| 0 <= k < |plan.moves| && plan.moves[k] == m;
      }
      if Asked(plan, id) {
        var k :| 0 <= k < |plan.moves| && plan.moves[k].building == x;
        assert plan.moves[k] in plan.moves;
      }
    case AddId(p) => EditedExactly(plan.edits, Build, p);
    case RemoveId(p) => EditedExactly(plan.edits, Remove, p);
    case StageId(_, _) =>
  }

  lemma EditedExactly(edits: seq<RoadEdit>, kind: RoadEditKind, p: Point)
    ensures p in Edited(edits, kind) <==> RoadEdit(kind, p) in edits
  {
    if p in Edited(edits, kind) {
      var e :| e in edits && e.kind == kind && e.point == p;
      assert e == RoadEdit(kind, p);
    }
    if RoadEdit(kind, p) in edits {
      var e := RoadEdit(kind, p);
      assert e in edits && e.kind == kind && e.point == p;
    }
  }

  /** Each listed step waits for exactly the steps asked for that it must follow. */
  ghost predicate RowsTold(original: City, plan: JointPlan, rows: map<StepId, set<StepId>>) {
    UniqueIds(original.buildings) && UniqueIds(plan.result.buildings) ==>
      forall a, b {:trigger b in rows[a]} :: a in rows ==>
        (b in rows[a] <==> Asked(plan, b) && MustFollow(original, plan.result, a, b))
  }

  lemma RowsAreTold(original: City, plan: JointPlan, rows: map<StepId, set<StepId>>)
    requires Rows(original, plan, rows)
    ensures RowsTold(original, plan, rows)
  {
    if UniqueIds(original.buildings) && UniqueIds(plan.result.buildings) {
      forall a, b | a in rows ensures b in rows[a] <==> Asked(plan, b) && MustFollow(original, plan.result, a, b) {
        assert Row(original, plan, a, rows[a]);
        AskedExactly(plan, b);
        WaitsExactly(original, plan.result, a, b);
      }
    }
  }

  /** A move waits for the moves off its destination and for the new roads beside it. */
  method MoveRules(original: City, plan: JointPlan) returns (r: Option<map<StepId, set<StepId>>>)
    ensures r.None? <==> MoveLookupFails(original, plan.result, Moved(plan.moves))
    ensures r.Some? ==> Rows(original, plan, r.value) && r.value.Keys == MoveSteps(plan.moves).Keys
    ensures r.Some? ==> RowsTold(original, plan, r.value)
  {
    var moved, built := Moved(plan.moves), Edited(plan.edits, Build);
    var todo := moved;
    var rows: map<StepId, set<StepId>> := map[];
    while todo != {}
      invariant todo <= moved
      invariant Rows(original, plan, rows)
      invariant forall a: StepId :: a in rows <==> a.MoveId? && a.building in moved - todo
      invariant forall b :: b in moved - todo ==> Known(plan.result, b)
      invariant forall b, c :: b in moved - todo && c in moved - {b} ==> Known(original, c)
      decreases todo
    {
      var b :| b in todo;
      if !Known(plan.result, b) { return None; }
      var holding := MovesHolding(original, FootprintOf(plan.result, b), moved - {b});
      if holding.None? {
        ghost var c :| c in moved - {b} && !Known(original, c);
        assert b in moved - {c};
        return None;
      }
      var beside := RoadsBeside(plan.result, b, built);
      MoveRow(original, plan, b, holding.value, beside);
      rows := rows[MoveId(b) := holding.value + beside];
      todo := todo - {b};
    }
    assert moved - todo == moved;
    AllLookedUp(original, plan.result, moved);
    MoveKeys(plan.moves, rows);
    RowsAreTold(original, plan, rows);
    return Some(rows);
  }

  lemma AllLookedUp(original: City, target: City, moved: set<string>)
    requires forall b :: b in moved ==> Known(target, b)
    requires forall b, c :: b in moved && c in moved - {b} ==> Known(original, c)
    ensures !MoveLookupFails(original, target, moved)
  {
    forall b | b in moved && moved - {b} != {} ensures Known(original, b) {
      var c :| c in moved - {b};
      assert b in moved - {c};
    }
  }

  lemma MoveKeys(moves: seq<LayoutMove>, rows: map<StepId, set<StepId>>)
    requires forall a: StepId :: a in rows <==> a.MoveId? && a.building in Moved(moves)
    ensures rows.Keys == MoveSteps(moves).Keys
  {
    forall a ensures a in rows.Keys <==> a in MoveSteps(moves).Keys { }
  }

  lemma MoveRow(original: City, plan: JointPlan, b: string, holding: set<StepId>, beside: set<StepId>)
    requires forall x: StepId :: x in holding <==>
      x.MoveId? && x.building in Moved(plan.moves) - {b} && Holds(original, FootprintOf(plan.result, b), x.building)
    requires forall x: StepId :: x in beside <==>
      x.AddId? && x.point in Edited(plan.edits, Build) && BesideBuilding(plan.result, b, x.point)
    ensures Row(original, plan, MoveId(b), holding + beside)
  {
  }

  /** A new road waits for the moves off its cell. */
  method BuildRules(original: City, plan: JointPlan) returns (r: Option<map<StepId, set<StepId>>>)
    ensures r.None? <==> Edited(plan.edits, Build) != {} && exists b :: b in Moved(plan.moves) && !Known(original, b)
    ensures r.Some? ==> Rows(original, plan, r.value) && RowsTold(original, plan, r.value)
    ensures r.Some? ==> forall a: StepId :: a in r.value <==> a.AddId? && a.point in Edited(plan.edits, Build)
  {
    var moved, built := Moved(plan.moves), Edited(plan.edits, Build);
    var todo := built;
    var rows: map<StepId, set<StepId>> := map[];
    while todo != {}
      invariant todo <= built
      invariant Rows(original, plan, rows)
      invariant forall a: StepId :: a in rows <==> a.AddId? && a.point in built - todo
      invariant built - todo != {} ==> forall b :: b in moved ==> Known(original, b)
      decreases todo
    {
      var p :| p in todo;
      var holding := MovesHolding(original, {p}, moved);
      if holding.None? { return None; }
      BuildRow(original, plan, p, holding.value);
      rows := rows[AddId(p) := holding.value];
      todo := todo - {p};
    }
    RowsAreTold(original, plan, rows);
    return Some(rows);
  }

  lemma BuildRow(original: City, plan: JointPlan, p: Point, holding: set<StepId>)
    requires forall x: StepId :: x in holding <==>
      x.MoveId? && x.building in Moved(plan.moves) && Holds(original, {p}, x.building)
    ensures Row(original, plan, AddId(p), holding)
  {
    forall b | b in Moved(plan.moves) ensures Holds(original, {p}, b) <==> p in FootprintOf(original, b) {
      if p in FootprintOf(original, b) { assert p in {p} * FootprintOf(original, b); }
    }
  }

  /** A removal waits for every move and every new road. */
  function RemovalRules(plan: JointPlan): map<StepId, set<StepId>> {
    var prerequisites := set x | x in Steps(plan) && !x.RemoveId?;
    map a | a in Steps(plan) && a.RemoveId? :: prerequisites
  }

  lemma RemovalRow(original: City, plan: JointPlan, a: StepId)
    requires a in RemovalRules(plan)
    ensures Row(original, plan, a, RemovalRules(plan)[a])
  {
    forall b ensures b in RemovalRules(plan)[a] <==> b in Steps(plan) && Waits(original, plan.result, a, b) {
      if b in Steps(plan) { assert !b.StageId?; }
    }
  }

  lemma RulesMakeTheGraph(original: City, plan: JointPlan, moves: map<StepId, set<StepId>>,
                          builds: map<StepId, set<StepId>>)
    requires Rows(original, plan, moves) && moves.Keys == MoveSteps(plan.moves).Keys
    requires Rows(original, plan, builds)
    requires forall a: StepId :: a in builds <==> a.AddId? && a.point in Edited(plan.edits, Build)
    ensures Restricted(Steps(plan), moves + builds + RemovalRules(plan)) == DependencyGraph(original, plan)
    ensures RowsTold(original, plan, Restricted(Steps(plan), moves + builds + RemovalRules(plan)))
  {
    var rules := moves + builds + RemovalRules(plan);
    var g, r := DependencyGraph(original, plan), Restricted(Steps(plan), rules);
    forall a | a in Steps(plan) ensures a in rules && r[a] == g[a] {
      RuleRow(original, plan, moves, builds, a);
      RowIsEdges(original, plan, a, rules[a]);
    }
    GraphIsTold(original, plan);
  }

  lemma GraphIsTold(original: City, plan: JointPlan)
    ensures RowsTold(original, plan, DependencyGraph(original, plan))
  {
    RowsAreTold(original, plan, DependencyGraph(original, plan));
  }

  lemma RuleRow(original: City, plan: JointPlan, moves: map<StepId, set<StepId>>, builds: map<StepId, set<StepId>>,
                a: StepId)
    requires Rows(original, plan, moves) && moves.Keys == MoveSteps(plan.moves).Keys
    requires Rows(original, plan, builds) && a in Steps(plan)
    requires forall a: StepId :: a in builds <==> a.AddId? && a.point in Edited(plan.edits, Build)
    ensures var rules := moves + builds + RemovalRules(plan); a in rules && Row(original, plan, a, rules[a])
  {
    if a in RemovalRules(plan) { RemovalRow(original, plan, a); }
  }

  lemma RowIsEdges(original: City, plan: JointPlan, a: StepId, row: set<StepId>)
    requires a in Steps(plan) && Row(original, plan, a, row)
    ensures row == DependencyGraph(original, plan)[a] && row <= Steps(plan).Keys
  {
  }

  /** The plan's steps in an order that honours every dependency, and what no order can. */
  ghost predicate Planned(original: City, plan: JointPlan, cp: ConstructionPlan, ids: seq<StepId>) {
    KahnPlan(Steps(plan), DependencyGraph(original, plan), cp, ids)
  }

  /** The planner has only one answer. */
  lemma PlanIsUnique(original: City, plan: JointPlan, cp: ConstructionPlan, ids: seq<StepId>, cp': ConstructionPlan,
                     ids': seq<StepId>)
    requires Planned(original, plan, cp, ids) && Planned(original, plan, cp', ids')
    ensures ids == ids' && cp == cp'
  {
    OrderIsUnique(DependencyGraph(original, plan), ids, ids');
  }

  // ---- The plan told from what the layout asks for -----------------------------------

  ghost predicate LastMove(moves: seq<LayoutMove>, k: int) {
    0 <= k < |moves| && forall j :: k < j < |moves| ==> moves[j].building != moves[k].building
  }

  /** The step carries out the last listed move of its building, or the edit of its point. */
  ghost predicate CarriesOut(plan: JointPlan, step: Step) {
    match step.id
    case MoveId(x) =>
      && step.kind == MoveBuilding && step.point == None && step.building == Some(x)
      && exists k :: LastMove(plan.moves, k) && plan.moves[k].building == x
                     && step.source == Some(plan.moves[k].source) && step.destination == Some(plan.moves[k].destination)
    case AddId(p) => step.kind == BuildRoad && step.point == Some(p) && IsRoadStep(step)
    case RemoveId(p) => step.kind == RemoveRoad && step.point == Some(p) && IsRoadStep(step)
    case StageId(_, _) => false
  }

  ghost predicate IsRoadStep(step: Step) {
    step.building == None && step.source == None && step.destination == None
  }

  lemma {:induction false} MoveStepIsLast(moves: seq<LayoutMove>, x: string) returns (k: nat)
    requires x in Moved(moves)
    ensures LastMove(moves, k) && moves[k].building == x
    ensures MoveSteps(moves)[MoveId(x)] == MoveStep(MoveId(x), x, moves[k].source, moves[k].destination, [])
  {
    var front, last := moves[..|moves| - 1], moves[|moves| - 1];
    assert moves == front + [last];
    if last.building == x {
      k := |front|;
    } else {
      k := MoveStepIsLast(front, x);
      LastMovePush(front, last, k);
    }
  }

  lemma LastMovePush(front: seq<LayoutMove>, last: LayoutMove, k: nat)
    requires LastMove(front, k) && front[k].building != last.building
    ensures LastMove(front + [last], k)
  {
  }

  lemma {:induction false} EditStepIsEdit(edits: seq<RoadEdit>, id: StepId)
    requires id in EditSteps(edits)
    ensures EditSteps(edits)[id].id == id && EditSteps(edits)[id].point == Some(id.point)
    ensures EditSteps(edits)[id].kind == (if id.AddId? then BuildRoad else RemoveRoad)
      && IsRoadStep(EditSteps(edits)[id])
  {
    var n := |edits| - 1;
    assert edits == edits[..n] + [edits[n]];
    if EditId(edits[n]) != id { EditStepIsEdit(edits[..n], id); }
  }

  lemma CarriedOut(plan: JointPlan, id: StepId)
    requires id in Steps(plan)
    ensures Steps(plan)[id].id == id && CarriesOut(plan, Steps(plan)[id])
  {
    if id.MoveId? {
      var k := MoveStepIsLast(plan.moves, id.building);
      assert LastMove(plan.moves, k);
    } else {
      EditStepIsEdit(plan.edits, id);
    }
  }

  /** The edges of the plan: none missing and none superfluous. */
  lemma EdgesExactly(original: City, plan: JointPlan, a: StepId, b: StepId)
    requires UniqueIds(original.buildings) && UniqueIds(plan.result.buildings) && a in DependencyGraph(original, plan)
    ensures b in DependencyGraph(original, plan)[a] <==> Asked(plan, b) && MustFollow(original, plan.result, a, b)
  {
    AskedExactly(plan, b);
    WaitsExactly(original, plan.result, a, b);
  }

  /** The step is the one the layout asks for under this id, and waits for exactly what it must follow. */
  ghost predicate IsPlanned(original: City, plan: JointPlan, id: StepId, step: Step) {
    && step.id == id && Asked(plan, id) && CarriesOut(plan, step)
    && forall d :: d in step.dependsOn <==> Asked(plan, d) && MustFollow(original, plan.result, id, d)
  }

  lemma AttachedIsPlanned(original: City, plan: JointPlan, id: StepId)
    requires UniqueIds(original.buildings) && UniqueIds(plan.result.buildings) && id in Steps(plan)
    ensures IsPlanned(original, plan, id, WithDependencies(Steps(plan)[id], DependencyGraph(original, plan)[id]))
  {
    CarriedOut(plan, id);
    AskedExactly(plan, id);
    var step := WithDependencies(Steps(plan)[id], DependencyGraph(original, plan)[id]);
    assert CarriesOut(plan, step) by { SameWork(plan, Steps(plan)[id], step); }
    forall d ensures d in step.dependsOn <==> Asked(plan, d) && MustFollow(original, plan.result, id, d) {
      AskedExactly(plan, d);
      WaitsExactly(original, plan.result, id, d);
    }
  }

  lemma SameWork(plan: JointPlan, step: Step, step': Step)
    requires CarriesOut(plan, step) && step' == step.(dependsOn := step'.dependsOn)
    ensures CarriesOut(plan, step')
  {
  }

  /** The steps, put in a row, are those the layout asks for, each once, each waiting for what it must follow. */
  ghost predicate TellsLayout(original: City, plan: JointPlan, steps: seq<Step>) {
    && (forall k {:trigger steps[k]} :: 0 <= k < |steps| ==> IsPlanned(original, plan, steps[k].id, steps[k]))
    && (forall id :: Asked(plan, id) ==> exists k :: 0 <= k < |steps| && steps[k].id == id)
    && (forall i, j :: 0 <= i < j < |steps| ==> steps[i].id != steps[j].id)
  }

  /** All ids of a plan in a row, the unordered ones last. */
  ghost function PlannedIds(original: City, plan: JointPlan, ids: seq<StepId>): (all: seq<StepId>) {
    ids + Remainder(DependencyGraph(original, plan), ids)
  }

  lemma PlannedIdsExactly(original: City, plan: JointPlan, ids: seq<StepId>)
    requires Ordered(DependencyGraph(original, plan), ids)
    ensures var all := PlannedIds(original, plan, ids);
      NoDuplicates(all) && forall id :: id in all <==> id in Steps(plan)
  {
    var g := DependencyGraph(original, plan);
    OrderedInGraph(g, ids);
    var rest := Remainder(g, ids);
    var all := ids + rest;
    forall i, j | 0 <= i < j < |all| ensures all[i] != all[j] {
      if i < |ids| <= j { assert all[i] in ids && all[j] in rest; }
    }
    forall id ensures id in all <==> id in Steps(plan) {
      if id in ids { assert id in Elements(ids); }
    }
  }

  lemma PlannedStepAt(original: City, plan: JointPlan, cp: ConstructionPlan, ids: seq<StepId>, k: nat)
    requires UniqueIds(original.buildings) && UniqueIds(plan.result.buildings)
    requires Planned(original, plan, cp, ids) && k < |cp.ordered + cp.unresolved|
    ensures |PlannedIds(original, plan, ids)| == |cp.ordered + cp.unresolved|
    ensures (cp.ordered + cp.unresolved)[k].id == PlannedIds(original, plan, ids)[k]
    ensures IsPlanned(original, plan, (cp.ordered + cp.unresolved)[k].id, (cp.ordered + cp.unresolved)[k])
  {
    var id := PlannedIds(original, plan, ids)[k];
    PlannedIdsExactly(original, plan, ids);
    assert id in PlannedIds(original, plan, ids);
    AttachedAt(original, plan, cp, ids, k);
    AttachedIsPlanned(original, plan, id);
  }

  lemma AttachJoin(steps: map<StepId, Step>, g: Graph, a: seq<StepId>, b: seq<StepId>, k: nat)
    requires forall i :: 0 <= i < |a| ==> a[i] in steps && a[i] in g
    requires forall i :: 0 <= i < |b| ==> b[i] in steps && b[i] in g
    requires k < |a + b|
    ensures (a + b)[k] in steps && (a + b)[k] in g
    ensures (Attach(steps, g, a) + Attach(steps, g, b))[k] == WithDependencies(steps[(a + b)[k]], g[(a + b)[k]])
  {
  }

  lemma AttachedAt(original: City, plan: JointPlan, cp: ConstructionPlan, ids: seq<StepId>, k: nat)
    requires Planned(original, plan, cp, ids) && k < |cp.ordered + cp.unresolved|
    ensures |PlannedIds(original, plan, ids)| == |cp.ordered + cp.unresolved|
    ensures var id := PlannedIds(original, plan, ids)[k];
      id in Steps(plan)
      && (cp.ordered + cp.unresolved)[k] == WithDependencies(Steps(plan)[id], DependencyGraph(original, plan)[id])
  {
    var g := DependencyGraph(original, plan);
    AttachJoin(Steps(plan), g, ids, Remainder(g, ids), k);
  }

  lemma PlannedTellsLayout(original: City, plan: JointPlan, cp: ConstructionPlan, ids: seq<StepId>)
    requires UniqueIds(original.buildings) && UniqueIds(plan.result.buildings)
    requires Planned(original, plan, cp, ids)
    ensures TellsLayout(original, plan, cp.ordered + cp.unresolved)
  {
    var all, steps := PlannedIds(original, plan, ids), cp.ordered + cp.unresolved;
    PlannedIdsExactly(original, plan, ids);
    forall k | 0 <= k < |steps| ensures steps[k].id == all[k] && IsPlanned(original, plan, steps[k].id, steps[k]) {
      PlannedStepAt(original, plan, cp, ids, k);
    }
    NamedAlike(plan, steps, all);
  }

  lemma NamedAlike(plan: JointPlan, steps: seq<Step>, all: seq<StepId>)
    requires NoDuplicates(all) && forall id :: id in all <==> id in Steps(plan)
    requires |steps| == |all| && forall k :: 0 <= k < |steps| ==> steps[k].id == all[k]
    ensures forall id :: Asked(plan, id) ==> exists k :: 0 <= k < |steps| && steps[k].id == id
    ensures forall i, j :: 0 <= i < j < |steps| ==> steps[i].id != steps[j].id
  {
    forall id | Asked(plan, id) ensures exists k :: 0 <= k < |steps| && steps[k].id == id {
      AskedExactly(plan, id);
      var k :| 0 <= k < |all| && all[k] == id;
      assert steps[k].id == id;
    }
  }

  lemma MoveStepsPush(moves: seq<LayoutMove>, k: nat)
    requires k < |moves|
    ensures MoveSteps(moves[..k + 1]) ==
      MoveSteps(moves[..k])[MoveId(moves[k].building) :=
        MoveStep(MoveId(moves[k].building), moves[k].building, moves[k].source, moves[k].destination, [])]
  {
    assert moves[..k + 1][..k] == moves[..k];
  }

  lemma EditStepsPush(base: map<StepId, Step>, edits: seq<RoadEdit>, k: nat)
    requires k < |edits|
    ensures base + EditSteps(edits[..k + 1]) == (base + EditSteps(edits[..k]))[EditId(edits[k]) := EditStep(edits[k])]
  {
    assert edits[..k + 1][..k] == edits[..k];
  }

  /** The step dictionary, filled entry by entry. */
  method CollectSteps(plan: JointPlan) returns (steps: map<StepId, Step>)
    ensures steps == Steps(plan)
  {
    steps := map[];
    for k := 0 to |plan.moves|
      invariant steps == MoveSteps(plan.moves[..k])
    {
      var m := plan.moves[k];
      MoveStepsPush(plan.moves, k);
      steps := steps[MoveId(m.building) := MoveStep(MoveId(m.building), m.building, m.source, m.destination, [])];
    }
    assert plan.moves[..|plan.moves|] == plan.moves;
    for k := 0 to |plan.edits|
      invariant steps == MoveSteps(plan.moves) + EditSteps(plan.edits[..k])
    {
      EditStepsPush(MoveSteps(plan.moves), plan.edits, k);
      steps := steps[EditId(plan.edits[k]) := EditStep(plan.edits[k])];
    }
    assert plan.edits[..|plan.edits|] == plan.edits;
  }

  method BuildPlan(original: City, plan: JointPlan)
    returns (r: Result<ConstructionPlan, PlanError>, ghost ids: seq<StepId>)
    ensures r == Failure(DimensionsDiffer) <==>
      original.width != plan.result.width || original.height != plan.result.height
    ensures r == Failure(KeyError) <==>
      original.width == plan.result.width && original.height == plan.result.height && LookupFails(original, plan)
    ensures r.Failure? ==> r.error == DimensionsDiffer || r.error == KeyError
    ensures r.Success? ==> Planned(original, plan, r.value, ids)
    ensures r.Success? && UniqueIds(original.buildings) && UniqueIds(plan.result.buildings) ==>
      TellsLayout(original, plan, r.value.ordered + r.value.unresolved)
  {
    ids := [];
    if original.width != plan.result.width || original.height != plan.result.height {
      return Failure(DimensionsDiffer), ids;
    }
    var steps := CollectSteps(plan);
    var moves := MoveRules(original, plan);
    if moves.None? { return Failure(KeyError), ids; }
    var builds := BuildRules(original, plan);
    if builds.None? { return Failure(KeyError), ids; }
    RulesMakeTheGraph(original, plan, moves.value, builds.value);
    var cp;
    cp, ids := TopologicalPlan(steps, moves.value + builds.value + RemovalRules(plan));
    r := Success(cp);
    if UniqueIds(original.buildings) && UniqueIds(plan.result.buildings) {
      PlannedTellsLayout(original, plan, cp, ids);
    }
  }
}
