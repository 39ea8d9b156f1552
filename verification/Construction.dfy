/** Physical construction steps, their ids, and what one step does to a map. */
module Construction {
  import opened Wrappers
  import opened Orders
  import opened CityMap
  import opened Coordinates

  datatype StepId =
    | MoveId(building: string)
    | AddId(point: Point)
    | RemoveId(point: Point)
    | StageId(building: string, n: nat)
  {
    function Text(): string {
      match this
      case MoveId(b) => "move:" + b
      case AddId(p) => "road:add:" + (IntText(p.x) + [':'] + IntText(p.y))
      case RemoveId(p) => "road:remove:" + (IntText(p.x) + [':'] + IntText(p.y))
      case StageId(b, n) => "staging:" + (b + [':'] + NatText(n))
    }
  }

  /** Step ids sort as the strings they are. */
  predicate IdLess(a: StepId, b: StepId) {
    LexLess(a.Text(), b.Text())
  }

  lemma DropHead(head: string, s: string, t: string)
    requires head + s == head + t
    ensures s == t
  {
    assert (head + s)[|head|..] == s && (head + t)[|head|..] == t;
  }

  lemma PointTextInjective(p: Point, q: Point)
    requires IntText(p.x) + [':'] + IntText(p.y) == IntText(q.x) + [':'] + IntText(q.y)
    ensures p == q
  {
    CutAtFirst(IntText(p.x), IntText(p.y), IntText(q.x), IntText(q.y), ':');
    IntTextInjective(p.x, q.x);
    IntTextInjective(p.y, q.y);
  }

  /** The text of a step id, with its kind's head and its argument apart. */
  function Head(id: StepId): string {
    match id
    case MoveId(_) => "move:"
    case AddId(_) => "road:add:"
    case RemoveId(_) => "road:remove:"
    case StageId(_, _) => "staging:"
  }

  lemma HeadsDiffer(a: StepId, b: StepId)
    requires a.Text() == b.Text()
    ensures Head(a) == Head(b)
  {
    assert a.Text()[0] == Head(a)[0] && b.Text()[0] == Head(b)[0];
    if !a.MoveId? && !a.StageId? && !b.MoveId? && !b.StageId? {
      assert a.Text()[5] == Head(a)[5] && b.Text()[5] == Head(b)[5];
    }
  }

  /** No two steps of different kinds, buildings, points or staging counts share an id. */
  lemma StepIdTextInjective(a: StepId, b: StepId)
    requires a.Text() == b.Text()
    ensures a == b
  {
    HeadsDiffer(a, b);
    match a
    case MoveId(x) =>
      assert b.MoveId?;
      DropHead("move:", x, b.building);
    case AddId(p) =>
      assert b.AddId?;
      DropHead("road:add:", IntText(p.x) + [':'] + IntText(p.y), IntText(b.point.x) + [':'] + IntText(b.point.y));
      PointTextInjective(p, b.point);
    case RemoveId(p) =>
      assert b.RemoveId?;
      DropHead("road:remove:", IntText(p.x) + [':'] + IntText(p.y), IntText(b.point.x) + [':'] + IntText(b.point.y));
      PointTextInjective(p, b.point);
    case StageId(x, n) =>
      assert b.StageId?;
      DropHead("staging:", x + [':'] + NatText(n), b.building + [':'] + NatText(b.n));
      CutAtLast(x, NatText(n), b.building, NatText(b.n), ':');
      NatTextInjective(n, b.n);
  }

  /** What a step id says: the kind of step, then the building, the point, or the building and the count. */
  ghost predicate Spelled(id: StepId, text: string) {
    match id
    case MoveId(b) => text == "move:" + b
    case AddId(p) => exists x, y :: Denotes(x, p.x) && Denotes(y, p.y) && text == "road:add:" + x + ":" + y
    case RemoveId(p) => exists x, y :: Denotes(x, p.x) && Denotes(y, p.y) && text == "road:remove:" + x + ":" + y
    case StageId(b, n) => exists count :: Denotes(count, n) && text == "staging:" + b + ":" + count
  }

  lemma TextIsSpelled(id: StepId)
    ensures Spelled(id, id.Text())
  {
    match id
    case MoveId(b) =>
    case AddId(p) => PointSpelled("road:add:", p, id.Text());
    case RemoveId(p) => PointSpelled("road:remove:", p, id.Text());
    case StageId(b, n) =>
      IntReadsBack(n);
      assert id.Text() == "staging:" + b + ":" + IntText(n);
  }

  lemma PointSpelled(head: string, p: Point, text: string)
    requires text == head + (IntText(p.x) + [':'] + IntText(p.y))
    ensures exists x, y :: Denotes(x, p.x) && Denotes(y, p.y) && text == head + x + ":" + y
  {
    IntReadsBack(p.x);
    IntReadsBack(p.y);
    assert text == head + IntText(p.x) + ":" + IntText(p.y);
  }

  lemma IdStrictTotal()
    ensures StrictTotal(IdLess)
  {
    LexStrictTotal();
    forall a, b ensures a == b || IdLess(a, b) || IdLess(b, a) {
      if a.Text() == b.Text() { StepIdTextInjective(a, b); }
    }
  }

  /** `sorted` on a set of step ids. */
  function SortedIds(s: set<StepId>): (r: seq<StepId>)
    ensures NoDuplicates(r) && forall x :: x in r <==> x in s
  {
    IdStrictTotal();
    Sorted(s, IdLess)
  }

  lemma SortedIdsAscend(s: set<StepId>)
    ensures Ascending(SortedIds(s), IdLess)
  {
    IdStrictTotal();
    SortedAscends(s, IdLess);
  }

  datatype StepKind = BuildRoad | MoveBuilding | RemoveRoad

  datatype Step = Step(
    id: StepId,
    kind: StepKind,
    building: Option<string>,
    source: Option<Point>,
    destination: Option<Point>,
    point: Option<Point>,
    dependsOn: seq<StepId>)

  datatype ConstructionPlan = ConstructionPlan(ordered: seq<Step>, unresolved: seq<Step>)

  datatype StepError =
    | MissingField
    | WrongSource
    | OutOfBounds
    | RoadExists
    | RoadMissing
    | PointBlocked
    | PointOccupied
    | MapRejected(error: MapError)

  function MoveStep(id: StepId, building: string, source: Point, destination: Point, dependsOn: seq<StepId>): Step {
    Step(id, MoveBuilding, Some(building), Some(source), Some(destination), None, dependsOn)
  }

  function RoadStep(id: StepId, kind: StepKind, point: Point, dependsOn: seq<StepId>): Step {
    Step(id, kind, None, None, None, Some(point), dependsOn)
  }

  /** The only map the step may turn `current` into, or why the step may not run. */
  function ApplyExpected(current: City, step: Step): Result<City, StepError> {
    if step.kind == MoveBuilding then
      if step.building.None? || step.source.None? || step.destination.None? then Failure(MissingField)
      else
        match IndexOf(current.buildings, step.building.value)
        case None => Failure(MapRejected(UnknownBuilding))
        case Some(i) =>
          if current.buildings[i].origin != step.source.value then Failure(WrongSource)
          else
            match current.MoveBuilding(step.building.value, step.destination.value)
            case Success(moved) => Success(moved)
            case Failure(e) => Failure(MapRejected(e))
    else if step.point.None? then Failure(MissingField)
    else
      var p := step.point.value;
      if !current.InBounds(p) then Failure(OutOfBounds)
      else if step.kind == BuildRoad then
        if p in current.roads then Failure(RoadExists)
        else if p in current.blocked then Failure(PointBlocked)
        else if exists i :: 0 <= i < |current.buildings| && p in current.buildings[i].Footprint() then
          Failure(PointOccupied)
        else Success(current.(roads := current.roads + {p}))
      else
        if p !in current.roads then Failure(RoadMissing)
        else Success(current.(roads := current.roads - {p}))
  }

  /** Some building covers the cell. */
  ghost predicate Built(c: City, p: Point) {
    exists i {:trigger c.buildings[i]} :: 0 <= i < |c.buildings| && Inside(c.buildings[i], p)
  }

  /**
   A road step applies exactly when its point is on the map and, to build, is neither road
   nor blocked nor under a building, or, to remove, is a road. Nothing but that point changes.
   */
  lemma RoadStepAppliesExactly(c: City, step: Step)
    requires step.kind != MoveBuilding && step.point.Some?
    ensures var p, r := step.point.value, ApplyExpected(c, step);
      && (r.Success? <==> OnMap(c, p)
                          && if step.kind == BuildRoad then p !in c.roads && p !in c.blocked && !Built(c, p)
                             else p in c.roads)
      && (r.Success? ==>
            && (forall q :: q in r.value.roads <==> if q == p then step.kind == BuildRoad else q in c.roads)
            && r.value.width == c.width && r.value.height == c.height && r.value.blocked == c.blocked
            && r.value.buildings == c.buildings)
  {
    var p := step.point.value;
    if i :| 0 <= i < |c.buildings| && p in c.buildings[i].Footprint() { assert Inside(c.buildings[i], p); }
    if Built(c, p) {
      var i :| 0 <= i < |c.buildings| && Inside(c.buildings[i], p);
      assert p in c.buildings[i].Footprint();
    }
  }

  /** Which of its checks refuses a road step: bounds, then road, blocked cell and building, or no road. */
  lemma RoadStepRefused(c: City, step: Step)
    requires step.kind != MoveBuilding && step.point.Some?
    ensures var p, r := step.point.value, ApplyExpected(c, step);
      && (r == Failure(OutOfBounds) <==> !OnMap(c, p))
      && (r == Failure(RoadExists) <==> OnMap(c, p) && step.kind == BuildRoad && p in c.roads)
      && (r == Failure(PointBlocked) <==> OnMap(c, p) && step.kind == BuildRoad && p !in c.roads && p in c.blocked)
      && (r == Failure(PointOccupied) <==>
            OnMap(c, p) && step.kind == BuildRoad && p !in c.roads && p !in c.blocked && Built(c, p))
      && (r == Failure(RoadMissing) <==> OnMap(c, p) && step.kind == RemoveRoad && p !in c.roads)
  {
    RoadStepAppliesExactly(c, step);
  }

  /** A step that lacks a field it needs does not apply, and that is the reason given. */
  lemma FieldMissing(c: City, step: Step)
    ensures ApplyExpected(c, step) == Failure(MissingField) <==>
      if step.kind == MoveBuilding then step.building == None || step.source == None || step.destination == None
      else step.point == None
  {
  }

  /**
   A move step applies exactly when its building stands where the step says, is movable, and
   may legally stand, beside a road, where the step puts it. Only that building's origin changes.
   */
  lemma MoveStepAppliesExactly(c: City, step: Step, i: nat)
    requires c.Valid() && i < |c.buildings| && step.kind == MoveBuilding
      && step.building == Some(c.buildings[i].spec.id)
    requires step.source.Some? && step.destination.Some?
    ensures var b := c.buildings[i].(origin := step.destination.value);
      var r := ApplyExpected(c, step);
      && (r.Success? <==> c.buildings[i].origin == step.source.value && b.spec.movable
                          && MayOccupy(c, b, Some(b.spec.id)) && exists p :: p in c.roads && NextTo(b, p))
      && (r.Success? ==> r.value == c.(buildings := c.buildings[i := b]))
      && (r == Failure(WrongSource) <==> c.buildings[i].origin != step.source.value)
  {
    IndexOfUnique(c.buildings, i);
    RelocateIsUpdate(c.buildings, i, step.destination.value);
    CanPlaceExactly(c, c.buildings[i].spec, step.destination.value, Some(c.buildings[i].spec.id), true);
  }

  /** A move of a building that is not on the map does not apply. */
  lemma MoveOfUnknown(c: City, step: Step)
    requires step.kind == MoveBuilding && step.building.Some? && step.source.Some? && step.destination.Some?
    requires forall i :: 0 <= i < |c.buildings| ==> c.buildings[i].spec.id != step.building.value
    ensures ApplyExpected(c, step) == Failure(MapRejected(UnknownBuilding))
  {
  }

  /** Why a step may not run on a map, told from the map and the step's fields. */
  ghost predicate Refused(c: City, step: Step) {
    match step.kind
    case MoveBuilding =>
      || step.building == None || step.source == None || step.destination == None
      || forall i :: 0 <= i < |c.buildings| && c.buildings[i].spec.id == step.building.value ==>
           !MayRelocate(c, c.buildings[i], step.source.value, step.destination.value)
    case BuildRoad =>
      step.point == None || !OnMap(c, step.point.value) || step.point.value in c.roads
      || step.point.value in c.blocked || Built(c, step.point.value)
    case RemoveRoad => step.point == None || !OnMap(c, step.point.value) || step.point.value !in c.roads
  }

  ghost predicate MayRelocate(c: City, b: Building, source: Point, destination: Point) {
    && b.origin == source && b.spec.movable
    && MayOccupy(c, b.(origin := destination), Some(b.spec.id))
    && exists p :: p in c.roads && NextTo(b.(origin := destination), p)
  }

  /** A step fails its precondition exactly when the map refuses it. */
  lemma RefusedExactly(c: City, step: Step)
    requires c.Valid()
    ensures ApplyExpected(c, step).Failure? <==> Refused(c, step)
  {
    if step.kind != MoveBuilding {
      if step.point.Some? { RoadStepAppliesExactly(c, step); }
    } else if step.building.Some? && step.source.Some? && step.destination.Some? {
      match IndexOf(c.buildings, step.building.value)
      case None =>
      case Some(i) =>
        MoveStepAppliesExactly(c, step, i);
        assert forall k :: 0 <= k < |c.buildings| && c.buildings[k].spec.id == step.building.value ==> k == i;
    }
  }

  lemma RoadsChangeKeepsValid(c: City, roads: set<Point>)
    requires c.Valid()
    requires forall p :: p in roads && p !in c.roads ==> c.InBounds(p)
    requires forall p, i :: p in roads && p !in c.roads && 0 <= i < |c.buildings| ==> p !in c.buildings[i].Footprint()
    ensures c.(roads := roads).Valid()
  {
    var d := c.(roads := roads);
    forall i | 0 <= i < |d.buildings| ensures d.Fits(d.buildings[i]) {
      assert c.Fits(c.buildings[i]);
    }
  }

  /** A step that applies always yields a legal map: no replay can break the geometry. */
  lemma ApplyKeepsValid(current: City, step: Step)
    requires current.Valid() && ApplyExpected(current, step).Success?
    ensures ApplyExpected(current, step).value.Valid()
  {
    if step.kind == MoveBuilding {
      MoveSucceedsExactly(current, IndexOf(current.buildings, step.building.value).value, step.destination.value);
    } else {
      RoadsChangeKeepsValid(current, ApplyExpected(current, step).value.roads);
    }
  }

  /** The map after running `steps` in order, every precondition checked. */
  function Replay(city: City, steps: seq<Step>): Result<City, StepError> {
    if steps == [] then Success(city)
    else
      match Replay(city, steps[..|steps| - 1])
      case Failure(e) => Failure(e)
      case Success(c) => ApplyExpected(c, steps[|steps| - 1])
  }

  lemma ReplayExtend(city: City, steps: seq<Step>, step: Step)
    ensures Replay(city, steps + [step]) ==
      match Replay(city, steps)
      case Failure(e) => Failure(e)
      case Success(c) => ApplyExpected(c, step)
  {
    assert (steps + [step])[..|steps|] == steps;
  }

  lemma ReplayNext(city: City, steps: seq<Step>, k: nat)
    requires k < |steps|
    ensures Replay(city, steps[..k + 1]) ==
      match Replay(city, steps[..k])
      case Failure(e) => Failure(e)
      case Success(c) => ApplyExpected(c, steps[k])
  {
    assert steps[..k + 1] == steps[..k] + [steps[k]];
    ReplayExtend(city, steps[..k], steps[k]);
  }

  lemma {:induction false} ReplayPrefixes(city: City, steps: seq<Step>, n: nat)
    requires n <= |steps| && Replay(city, steps).Success?
    ensures Replay(city, steps[..n]).Success?
    ensures n < |steps| ==> ApplyExpected(Replay(city, steps[..n]).value, steps[n]) == Replay(city, steps[..n + 1])
    decreases |steps|
  {
    if n == |steps| {
      assert steps[..n] == steps;
    } else {
      var front := steps[..|steps| - 1];
      if n < |front| {
        ReplayPrefixes(city, front, n);
        assert front[..n] == steps[..n] && front[..n + 1] == steps[..n + 1];
      } else {
        assert steps[..n + 1] == steps;
      }
    }
  }

  /** Every map met during a successful replay is legal. */
  lemma {:induction false} ReplayKeepsValid(city: City, steps: seq<Step>)
    requires city.Valid() && Replay(city, steps).Success?
    ensures Replay(city, steps).value.Valid()
  {
    if steps != [] {
      var front := steps[..|steps| - 1];
      ReplayKeepsValid(city, front);
      ApplyKeepsValid(Replay(city, front).value, steps[|steps| - 1]);
    }
  }

  /** Each step's declared dependencies are among the steps before it. */
  ghost predicate DependenciesMet(steps: seq<Step>) {
    forall k :: 0 <= k < |steps| ==> DependsOnEarlier(steps, k)
  }

  ghost predicate DependsOnEarlier(steps: seq<Step>, k: int)
    requires 0 <= k < |steps|
  {
    forall d :: d in steps[k].dependsOn ==> exists j :: 0 <= j < k && steps[j].id == d
  }

  // ---- The buildings of a base map at given positions -------------------------------

  /** `base` with every building at its position in `pos` and with `roads`. */
  function Place(base: City, pos: map<string, Point>, roads: set<Point>): City
    requires forall i :: 0 <= i < |base.buildings| ==> base.buildings[i].spec.id in pos
  {
    base.(roads := roads,
          buildings := seq(|base.buildings|, i requires 0 <= i < |base.buildings| =>
            base.buildings[i].(origin := pos[base.buildings[i].spec.id])))
  }

  ghost predicate Positions(base: City, pos: map<string, Point>) {
    forall i :: 0 <= i < |base.buildings| ==> base.buildings[i].spec.id in pos
  }

  lemma PlaceIsUpdate(base: City, pos: map<string, Point>, roads: set<Point>, i: nat, destination: Point)
    requires UniqueIds(base.buildings) && Positions(base, pos) && i < |base.buildings|
    ensures WithOrigin(Place(base, pos, roads), i, destination)
         == Place(base, pos[base.buildings[i].spec.id := destination], roads)
  {
  }

  /** A declared move applies exactly when the new placement is legal and touches a road. */
  lemma MoveApplies(base: City, pos: map<string, Point>, roads: set<Point>, i: nat, step: Step)
    requires Positions(base, pos) && Place(base, pos, roads).Valid() && i < |base.buildings|
    requires step.kind == MoveBuilding && step.building == Some(base.buildings[i].spec.id)
    requires step.source == Some(pos[base.buildings[i].spec.id]) && step.destination.Some?
    ensures var next := Place(base, pos[base.buildings[i].spec.id := step.destination.value], roads);
      var r := ApplyExpected(Place(base, pos, roads), step);
      && (r.Success? <==>
          base.buildings[i].spec.movable && next.Valid() && next.buildings[i].Touches(roads))
      && (r.Success? ==> r.value == next)
  {
    var c := Place(base, pos, roads);
    assert forall k :: 0 <= k < |c.buildings| ==> c.buildings[k].spec == base.buildings[k].spec;
    IndexOfUnique(c.buildings, i);
    MoveSucceedsExactly(c, i, step.destination.value);
    PlaceIsUpdate(base, pos, roads, i, step.destination.value);
  }
}
